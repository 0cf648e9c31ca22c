/** The declarative policy that decides whether an audited update may be promoted without a human. */
module Promotion {
  import opened Texts
  import opened Json
  import opened Canonical
  import opened Cards

  datatype Verdict = Valid | Invalid | Absent

  datatype AuditReport = AuditReport(
    toolName: Text,
    newCardId: Text,
    signatureValid: bool,
    manifest: Verdict,
    attestation: Verdict,
    diff: CardDiff,
    ok: bool)

  datatype Policy = Policy(
    requireManifest: bool,
    requireAttestation: bool,
    allowBreaking: bool,
    allowRiskEscalation: bool,
    allowKeyChange: bool)

  datatype Reason =
    | SignatureInvalid | AuditFailed | NeedsManifest | NeedsAttestation
    | BreakingNotAllowed | KeyChangeNotAllowed | EscalationNotAllowed

  // ----- Risk -----

  /** The value, made a string, is the word; for a nonempty word without commas. */
  predicate StringIs(v: Value, word: Text) {
    match v
    case Leaf(Str(s)) => s == word
    case Arr(items) => |items| == 1 && StringIs(items[0], word)
    case _ => false
  }

  /** The rank that the table of tiers gives the value's text; other texts rank lowest. */
  function RiskRank(v: Option<Value>): nat {
    if v.None? then 0
    else if StringIs(v.value, Ascii("caution")) then 1
    else if StringIs(v.value, Ascii("danger")) then 2
    else 0
  }

  predicate IsRiskEscalation(before: Option<Value>, after: Option<Value>) {
    RiskRank(after) > RiskRank(before)
  }

  lemma {:induction false} StringIsOfCanon(v: Value, word: Text)
    ensures StringIs(Canon(v), word) <==> StringIs(v, word)
  {
    match v
    case Arr(items) =>
      if |items| == 1 {
        StringIsOfCanon(items[0], word);
      }
    case _ =>
  }

  /** Canonically equal risk tiers have the same rank. */
  lemma RiskRankRespectsCanon(a: Option<Value>, b: Option<Value>)
    requires CanonEqual(a, b)
    ensures RiskRank(a) == RiskRank(b)
  {
    if a.Some? {
      PrintInjective(Canon(a.value), Canon(b.value));
      StringIsOfCanon(a.value, Ascii("caution"));
      StringIsOfCanon(b.value, Ascii("caution"));
      StringIsOfCanon(a.value, Ascii("danger"));
      StringIsOfCanon(b.value, Ascii("danger"));
    }
  }

  /** The first change of the risk tier. */
  function RiskChange(changes: seq<Change>): Option<Change> {
    if changes == [] then None
    else if changes[0].field == CostPart(RiskTier) then Some(changes[0])
    else RiskChange(changes[1..])
  }

  lemma {:induction false} RiskChangeFinds(changes: seq<Change>)
    ensures RiskChange(changes).Some? ==> RiskChange(changes).value in changes && RiskChange(changes).value.field == CostPart(RiskTier)
    ensures RiskChange(changes).None? ==> forall x | x in changes :: x.field != CostPart(RiskTier)
  {
    if changes != [] {
      RiskChangeFinds(changes[1..]);
      assert changes == [changes[0]] + changes[1..];
    }
  }

  predicate Escalates(diff: CardDiff) {
    var risk := RiskChange(diff.changes);
    risk.Some? && IsRiskEscalation(risk.value.before, risk.value.after)
  }

  /** A diff escalates exactly when the new card's risk tier ranks above the old one's. */
  lemma EscalationSeen(a: Card, b: Card)
    ensures Escalates(Diff(a, b)) <==> RiskRank(CostValue(b, RiskTier)) > RiskRank(CostValue(a, RiskTier))
  {
    var d := CostPart(RiskTier);
    RiskChangeFinds(Diff(a, b).changes);
    DiffListsDifferences(a, b, d);
    if Agree(a, b, d) {
      RiskRankRespectsCanon(CostValue(a, RiskTier), CostValue(b, RiskTier));
    } else {
      assert ChangeOf(a, b, d) in Diff(a, b).changes;
    }
  }

  // ----- The decision -----

  function Unless(reasons: seq<Reason>, ok: bool, reason: Reason): seq<Reason> {
    if ok then reasons else reasons + [reason]
  }

  function Reasons(report: AuditReport, policy: Policy): seq<Reason> {
    var r1 := Unless([], report.signatureValid, SignatureInvalid);
    var r2 := Unless(r1, report.ok, AuditFailed);
    var r3 := Unless(r2, policy.requireManifest ==> report.manifest == Valid, NeedsManifest);
    var r4 := Unless(r3, policy.requireAttestation ==> report.attestation == Valid, NeedsAttestation);
    var r5 := Unless(r4, report.diff.requiresApproval ==> policy.allowBreaking, BreakingNotAllowed);
    var r6 := Unless(r5, report.diff.keyChanged ==> policy.allowKeyChange, KeyChangeNotAllowed);
    Unless(r6, Escalates(report.diff) ==> policy.allowRiskEscalation, EscalationNotAllowed)
  }

  predicate Promotes(report: AuditReport, policy: Policy) {
    Reasons(report, policy) == []
  }

  /** The source's `evaluatePromotion`: collects the reasons that withhold a promotion. */
  method EvaluatePromotion(report: AuditReport, policy: Policy) returns (promote: bool, reasons: seq<Reason>)
    ensures reasons == Reasons(report, policy) && promote == Promotes(report, policy)
  {
    reasons := [];
    if !report.signatureValid { reasons := reasons + [SignatureInvalid]; }
    if !report.ok { reasons := reasons + [AuditFailed]; }
    if policy.requireManifest && report.manifest != Valid { reasons := reasons + [NeedsManifest]; }
    if policy.requireAttestation && report.attestation != Valid { reasons := reasons + [NeedsAttestation]; }
    if report.diff.requiresApproval && !policy.allowBreaking { reasons := reasons + [BreakingNotAllowed]; }
    if report.diff.keyChanged && !policy.allowKeyChange { reasons := reasons + [KeyChangeNotAllowed]; }
    var risk := RiskChange(report.diff.changes);
    if risk.Some? && IsRiskEscalation(risk.value.before, risk.value.after) && !policy.allowRiskEscalation {
      reasons := reasons + [EscalationNotAllowed];
    }
    promote := |reasons| == 0;
  }

  /** The bounds a promotion from `a` to `b` respects, whatever else the policy allows. */
  lemma PromotionBounds(report: AuditReport, policy: Policy, a: Card, b: Card)
    requires report.diff == Diff(a, b) && Promotes(report, policy)
    ensures report.signatureValid && report.ok
    ensures !policy.allowBreaking ==>
      forall d: DiffField :: d != Whole(Cost) && SeverityOf(d) == Breaking ==> Agree(a, b, d)
    ensures !policy.allowKeyChange ==> a.publicKey == b.publicKey
    ensures !policy.allowRiskEscalation ==> RiskRank(CostValue(b, RiskTier)) <= RiskRank(CostValue(a, RiskTier))
  {
    ApprovalRequiredExactly(a, b);
    EscalationSeen(a, b);
  }

  /** The policy with every flag off. */
  const EMPTY_POLICY := Policy(false, false, false, false, false)

  /** The empty policy promotes exactly the changes that pass the audit and need no approval. */
  lemma EmptyPolicyPromotesReviewOnly(report: AuditReport, a: Card, b: Card)
    requires report.diff == Diff(a, b)
    ensures Promotes(report, EMPTY_POLICY) <==> report.signatureValid && report.ok && !report.diff.requiresApproval
  {
    ApprovalRequiredExactly(a, b);
    PublicKeyAgrees(a, b);
    EscalationSeen(a, b);
    if Agree(a, b, CostPart(RiskTier)) {
      RiskRankRespectsCanon(CostValue(a, RiskTier), CostValue(b, RiskTier));
    }
    assert SeverityOf(PublicKey) == Breaking && SeverityOf(CostPart(RiskTier)) == Breaking;
  }
}
