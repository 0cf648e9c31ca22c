/** What every run of the client keeps. */
module GovernanceProofs {
  import opened Texts
  import opened Json
  import opened Crypto
  import opened CardFields
  import opened Cards
  import opened Receipts
  import opened Promotion
  import opened JsMaps
  import opened Governance

  // ----- Runs -----

  datatype Step =
    | Fetch(name: Text, served: Option<Card>)
    | CallTool(name: Text, env: CallEnv)
    | HumanApproves(card: Card, reinstate: bool)
    | HumanRevokes(tool: Text)
    | Audit(audits: AuditEnv)

  function Next(cfg: Config, c: Suite, s: State, step: Step): State {
    match step
    case Fetch(name, served) => GetCard(c, s, name, served).0
    case CallTool(name, env) => Call(cfg, c, s, name, env).0
    case HumanApproves(card, reinstate) => ApproveCard(c, s, card, reinstate).0
    case HumanRevokes(tool) => RevokeTool(s, tool).0
    case Audit(audits) => ProcessAudits(cfg, c, s, audits).0
  }

  function Run(cfg: Config, c: Suite, s: State, steps: seq<Step>): State
    decreases |steps|
  {
    if steps == [] then s else Run(cfg, c, Next(cfg, c, s, steps[0]), steps[1..])
  }

  /** The update is parked, under its tool's name. */
  ghost predicate Holds(queue: JsMap<Text, Entry>, e: Entry) {
    Item(e.toolName, e) in queue
  }

  ghost predicate Keyed(queue: JsMap<Text, Entry>) {
    Distinct(queue) && forall x | x in queue :: x.key == x.value.toolName
  }

  // ----- Shape: names agree, and every parked update has a pin to fall back to -----

  ghost predicate Shape(c: Suite, s: State) {
    (forall n | n in s.cache :: VerifyGlyph(c, s.cache[n])) &&
    (forall t | t in s.pins :: s.pins[t].toolName == t && s.pins[t].card.name == t) &&
    Keyed(s.queue) &&
    (forall e | Holds(s.queue, e) :: e.toolName in s.pins && e.newCard.name == e.toolName)
  }

  lemma ParkedFinds(queue: JsMap<Text, Entry>, t: Text)
    requires Keyed(queue)
    ensures Get(queue, t).Some? ==> Holds(queue, Get(queue, t).value) && Get(queue, t).value.toolName == t
    ensures Get(queue, t).None? ==> forall e | Holds(queue, e) :: e.toolName != t
  {
    GetIs(queue, t);
    if Get(queue, t).Some? {
      assert Item(t, Get(queue, t).value) in queue;
    }
  }

  lemma EnqueueIs(queue: JsMap<Text, Entry>, e: Entry)
    requires Keyed(queue)
    ensures Keyed(Put(queue, e.toolName, e))
    ensures forall x :: Holds(Put(queue, e.toolName, e), x) <==> x == e || (Holds(queue, x) && x.toolName != e.toolName)
  {
    PutIs(queue, e.toolName, e);
  }

  lemma DequeueIs(queue: JsMap<Text, Entry>, t: Text)
    requires Keyed(queue)
    ensures Keyed(Delete(queue, t))
    ensures forall x :: Holds(Delete(queue, t), x) <==> Holds(queue, x) && x.toolName != t
  {
    DeleteIs(queue, t);
  }

  lemma SameToolSameEntry(queue: JsMap<Text, Entry>, e: Entry, f: Entry)
    requires Keyed(queue) && Holds(queue, e) && Holds(queue, f) && e.toolName == f.toolName
    ensures e == f
  {
    GetIs(queue, e.toolName);
  }

  // ----- Agreement of parked diffs with the current pin -----

  ghost predicate SameBreaking(a: Card, b: Card) {
    forall d: DiffField :: Gating(d) ==> Agree(a, b, d)
  }

  /** By name: these are the fields of the contract. */
  lemma SameBreakingByName(a: Card, b: Card)
    ensures SameBreaking(a, b) <==> SameContract(a, b)
  {
    BreakingByName(a, b);
  }

  lemma NotRequiredIsSameBreaking(a: Card, b: Card)
    ensures !Diff(a, b).requiresApproval <==> SameBreaking(a, b)
  {
    ApprovalRequiredExactly(a, b);
  }

  lemma SameBreakingConsequences(a: Card, b: Card)
    requires SameBreaking(a, b)
    ensures a.publicKey == b.publicKey
    ensures RiskRank(CostValue(a, RiskTier)) == RiskRank(CostValue(b, RiskTier))
  {
    assert Gating(PublicKey) && Gating(CostPart(RiskTier));
    assert Agree(a, b, PublicKey) && Agree(a, b, CostPart(RiskTier));
    PublicKeyAgrees(a, b);
    RiskRankRespectsCanon(CostValue(a, RiskTier), CostValue(b, RiskTier));
  }

  /** The parked diff was taken from a card that agrees with this pin on every breaking field. */
  ghost predicate Explains(e: Entry, pinned: Card) {
    exists base: Card :: e.diff == Diff(base, e.newCard) && SameBreaking(base, pinned)
  }

  ghost predicate Agreeing(s: State, t: Text) {
    forall e | Holds(s.queue, e) && e.toolName == t && t in s.pins :: Explains(e, s.pins[t].card)
  }

  /**
   What that means: on every breaking field the parked diff reports exactly what the diff from the
   current pin would report, and it draws the same conclusions.
   */
  lemma ParkedDiffAgrees(e: Entry, pinned: Card, d: DiffField)
    requires Explains(e, pinned) && Gating(d)
    ensures (exists x :: x in e.diff.changes && x.field == d) <==> (exists x :: x in Diff(pinned, e.newCard).changes && x.field == d)
    ensures e.diff.requiresApproval == Diff(pinned, e.newCard).requiresApproval
    ensures e.diff.keyChanged == Diff(pinned, e.newCard).keyChanged
    ensures Escalates(e.diff) == Escalates(Diff(pinned, e.newCard))
  {
    var base :| e.diff == Diff(base, e.newCard) && SameBreaking(base, pinned);
    var n := e.newCard;
    SameBreakingConsequences(base, pinned);
    EscalationSeen(base, n);
    EscalationSeen(pinned, n);
    NotRequiredIsSameBreaking(base, n);
    NotRequiredIsSameBreaking(pinned, n);
    assert SameBreaking(base, n) <==> SameBreaking(pinned, n) by {
      forall f: DiffField | Gating(f) ensures Agree(base, n, f) <==> Agree(pinned, n, f) {
        assert Agree(base, pinned, f);
      }
    }
    assert Agree(base, pinned, d);
    DiffListsDifferences(base, n, d);
    DiffListsDifferences(pinned, n, d);
    if !Agree(base, n, d) {
      assert ChangeOf(base, n, d).field == d && ChangeOf(pinned, n, d).field == d;
    }
  }

  lemma ExplainsMoves(e: Entry, p: Card, q: Card)
    requires Explains(e, p) && SameBreaking(p, q)
    ensures Explains(e, q)
  {
    var base :| e.diff == Diff(base, e.newCard) && SameBreaking(base, p);
    forall d: DiffField | Gating(d) ensures Agree(base, q, d) {
      assert Agree(base, p, d) && Agree(p, q, d);
    }
    assert SameBreaking(base, q);
  }

  lemma FreshDiffExplains(e: Entry, p: Card)
    requires e.diff == Diff(p, e.newCard)
    ensures Explains(e, p)
  {
    assert SameBreaking(p, p);
  }

  /** Cards from which the same diff was taken agree on every breaking field. */
  lemma SameDiffSameBreaking(a: Card, b: Card, n: Card)
    requires Diff(a, n) == Diff(b, n)
    ensures SameBreaking(a, b)
  {
    forall d: DiffField | Gating(d) ensures Agree(a, b, d) {
      DiffListsDifferences(a, n, d);
      DiffListsDifferences(b, n, d);
      if !Agree(a, n, d) {
        assert ChangeOf(a, n, d) in Diff(b, n).changes;
        ChangesExact(b, n, DIFF_FIELDS, ChangeOf(a, n, d));
      }
    }
  }

  /** A parked diff explains two pins exactly when they agree on every breaking field. */
  lemma ExplainsExactly(e: Entry, p: Card, q: Card)
    requires Explains(e, p)
    ensures Explains(e, q) <==> SameBreaking(p, q)
  {
    if SameBreaking(p, q) {
      ExplainsMoves(e, p, q);
    } else if Explains(e, q) {
      var a :| e.diff == Diff(a, e.newCard) && SameBreaking(a, p);
      var b :| e.diff == Diff(b, e.newCard) && SameBreaking(b, q);
      SameDiffSameBreaking(a, b, e.newCard);
      forall d: DiffField | Gating(d) ensures Agree(p, q, d) {
        assert Agree(a, p, d) && Agree(b, q, d) && Agree(a, b, d);
      }
    }
  }

  // ----- When a parked update may still be promoted over another pin -----

  /** The bounds between a pin and its successor: what a policy promises without a human. */
  ghost predicate BoundedBy(policy: Policy, p: Card, q: Card) {
    (!policy.allowBreaking ==> SameBreaking(p, q)) &&
    (!policy.allowKeyChange ==> p.publicKey == q.publicKey) &&
    (!policy.allowRiskEscalation ==> RiskRank(CostValue(q, RiskTier)) <= RiskRank(CostValue(p, RiskTier)))
  }

  /** Whatever the parked diff denies of the new card is not so of the pin `q` either. */
  ghost predicate Fits(diff: CardDiff, q: Card, n: Card) {
    (!diff.requiresApproval ==> SameBreaking(q, n)) &&
    (!diff.keyChanged ==> q.publicKey == n.publicKey) &&
    (!Escalates(diff) ==> RiskRank(CostValue(n, RiskTier)) <= RiskRank(CostValue(q, RiskTier)))
  }

  /** The same condition on the card the diff was taken from. */
  lemma FitsFrom(base: Card, q: Card, n: Card)
    ensures Fits(Diff(base, n), q, n) <==>
      (SameBreaking(base, n) ==> SameBreaking(q, n)) &&
      (base.publicKey == n.publicKey ==> q.publicKey == n.publicKey) &&
      (RiskRank(CostValue(n, RiskTier)) <= RiskRank(CostValue(base, RiskTier)) ==>
        RiskRank(CostValue(n, RiskTier)) <= RiskRank(CostValue(q, RiskTier)))
  {
    NotRequiredIsSameBreaking(base, n);
    EscalationSeen(base, n);
  }

  /** A passed audit of the diff, with no manifest and no attestation. */
  function PassedAudit(tool: Text, diff: CardDiff, n: Card): AuditReport {
    AuditReport(tool, n.id, true, Absent, Absent, diff, true)
  }

  /** The policies that withhold one permission each, and the one that breaks the bounds if the diff does not fit. */
  ghost function Withholding(diff: CardDiff, q: Card, n: Card): Policy {
    if !diff.requiresApproval && !SameBreaking(q, n) then Policy(false, false, false, true, true)
    else if !diff.keyChanged && q.publicKey != n.publicKey then Policy(false, false, true, true, false)
    else Policy(false, false, true, false, true)
  }

  lemma UnfitBreaksBounds(tool: Text, diff: CardDiff, q: Card, n: Card)
    requires !Fits(diff, q, n)
    ensures Promotes(PassedAudit(tool, diff, n), Withholding(diff, q, n)) && !BoundedBy(Withholding(diff, q, n), q, n)
  {
  }

  /**
   Every policy that promotes the parked update keeps the step from the pin `q` within its bounds
   exactly when the parked diff fits that pin.
   */
  lemma FitsExactly(diff: CardDiff, q: Card, n: Card)
    ensures Fits(diff, q, n) <==>
      forall r: AuditReport, policy: Policy :: r.diff == diff && Promotes(r, policy) ==> BoundedBy(policy, q, n)
  {
    if !Fits(diff, q, n) {
      UnfitBreaksBounds([], diff, q, n);
      assert PassedAudit([], diff, n).diff == diff;
    }
  }

  lemma ExplainsFits(e: Entry, p: Card)
    requires Explains(e, p)
    ensures Fits(e.diff, p, e.newCard)
  {
    var base :| e.diff == Diff(base, e.newCard) && SameBreaking(base, p);
    FitsFrom(base, p, e.newCard);
    SameBreakingConsequences(base, p);
    if SameBreaking(base, e.newCard) {
      forall d: DiffField | Gating(d) ensures Agree(p, e.newCard, d) {
        assert Agree(base, p, d) && Agree(base, e.newCard, d);
      }
    }
  }

  lemma FitsMoves(diff: CardDiff, p: Card, q: Card, n: Card)
    requires Fits(diff, p, n) && SameBreaking(p, q)
    ensures Fits(diff, q, n)
  {
    SameBreakingConsequences(p, q);
    if SameBreaking(p, n) {
      forall d: DiffField | Gating(d) ensures Agree(q, n, d) {
        assert Agree(p, q, d) && Agree(p, n, d);
      }
    }
  }

  /** What is parked for the tool fits its pin. */
  ghost predicate Fitting(s: State, t: Text) {
    forall e | Holds(s.queue, e) && e.toolName == t && t in s.pins :: Fits(e.diff, s.pins[t].card, e.newCard)
  }

  // ----- Audits: the report still describes the parked entry when it is decided -----

  ghost predicate Describes(c: Suite, r: AuditReport, e: Entry) {
    r.toolName == e.toolName ==>
      r.diff == e.diff && r.newCardId == e.newCard.id && (r.signatureValid ==> VerifyGlyph(c, e.newCard))
  }

  lemma {:induction false} AuditDescribes(c: Suite, s: State, entries: JsMap<Text, Entry>, env: AuditEnv, queue: JsMap<Text, Entry>)
    requires Keyed(queue) && forall x | x in entries :: x in queue
    ensures forall r, e | r in AuditAll(c, s, entries, env) && Holds(queue, e) :: Describes(c, r, e)
    decreases |entries|
  {
    if entries != [] {
      assert entries == [entries[0]] + entries[1..];
      AuditDescribes(c, s, entries[1..], env, queue);
      var first := entries[0].value;
      forall e | Holds(queue, e) ensures Describes(c, AuditEntry(c, s, first, env), e) {
        if e.toolName == first.toolName {
          SameToolSameEntry(queue, e, first);
        }
      }
    }
  }

  /** What one decision may do to the pins. */
  ghost predicate Promoted(cfg: Config, c: Suite, s: State, s': State, r: AuditReport, e: Entry) {
    Holds(s.queue, e) && e.toolName == r.toolName && cfg.policy.Some? && Promotes(r, cfg.policy.value) &&
    r.diff == e.diff && VerifyGlyph(c, e.newCard) &&
    !(r.toolName in s.pins && s.pins[r.toolName].revoked) &&
    s'.cache == s.cache && s'.pins == s.pins[r.toolName := Pin(r.toolName, e.newCard, false)] &&
    s'.queue == Delete(s.queue, r.toolName)
  }

  lemma DecideIs(cfg: Config, c: Suite, s: State, r: AuditReport)
    requires Keyed(s.queue) && forall e | Holds(s.queue, e) :: Describes(c, r, e)
    ensures var (s', promoted) := Decide(cfg, s, r);
      if promoted then exists e :: Promoted(cfg, c, s, s', r, e) else s' == s
  {
    ParkedFinds(s.queue, r.toolName);
    var (s', promoted) := Decide(cfg, s, r);
    if promoted {
      var e := Get(s.queue, r.toolName).value;
      assert r.signatureValid;
      assert Promoted(cfg, c, s, s', r, e);
    }
  }

  // ----- One call -----

  /** The three things a call may do to the pins and the parked updates. */
  ghost predicate CallEffect(cfg: Config, c: Suite, s: State, s': State, name: Text, card: Card) {
    || (s'.pins == s.pins && s'.queue == s.queue)
    || (name !in s.pins && cfg.tofu && VerifyGlyph(c, card) && card.name == name &&
        s'.pins == s.pins[name := Pin(name, card, false)] && s'.queue == s.queue)
    || (name in s.pins && !s.pins[name].revoked && card.name == name &&
        (!cfg.secureMode || cfg.autoApproveReviewChanges) && !Diff(s.pins[name].card, card).requiresApproval &&
        s'.pins == s.pins[name := s.pins[name].(card := card)] && s'.queue == s.queue)
    || (name in s.pins && !s.pins[name].revoked && card.name == name && cfg.resilientUpdates &&
        s'.pins == s.pins && s'.queue == Put(s.queue, name, Entry(name, card, Diff(s.pins[name].card, card))))
  }

  lemma GetCardKeepsCache(c: Suite, s: State, name: Text, served: Option<Card>)
    requires Shape(c, s)
    ensures var s' := GetCard(c, s, name, served).0;
      s'.pins == s.pins && s'.queue == s.queue && Shape(c, s')
  {
  }

  lemma ApproveIs(cfg: Config, c: Suite, s: State, name: Text, card: Card)
    requires Shape(c, s)
    ensures var (s', error) := Approve(cfg, c, s, name, card);
      s'.cache == s.cache && CallEffect(cfg, c, s, s', name, card)
  {
  }

  lemma TrustKeepsPins(cfg: Config, c: Suite, s: State, name: Text, env: CallEnv)
    requires forall n | n in s.cache :: VerifyGlyph(c, s.cache[n])
    ensures var s' := EnforceTrust(cfg, c, s, name, env).0;
      s'.pins == s.pins && s'.queue == s.queue && forall n | n in s'.cache :: VerifyGlyph(c, s'.cache[n])
  {
  }

  lemma AttestationKeepsPins(cfg: Config, c: Suite, s: State, name: Text, env: CallEnv)
    requires forall n | n in s.cache :: VerifyGlyph(c, s.cache[n])
    ensures var s' := EnsureAttested(cfg, c, s, name, env).0;
      s'.pins == s.pins && s'.queue == s.queue && forall n | n in s'.cache :: VerifyGlyph(c, s'.cache[n])
  {
  }

  /** Past the pin gate, a call changes neither pins nor parked updates. */
  lemma CallPins(cfg: Config, c: Suite, s: State, name: Text, env: CallEnv)
    requires Shape(c, s)
    ensures var s1, s' := EnsureApproved(cfg, c, s, name, env.served).0, Call(cfg, c, s, name, env).0;
      s'.pins == s1.pins && s'.queue == s1.queue && forall n | n in s'.cache :: VerifyGlyph(c, s'.cache[n])
  {
    GetCardKeepsCache(c, s, name, env.served);
    var (s0, fetched) := CachedCard(c, s, name, env.served);
    var s1 := EnsureApproved(cfg, c, s, name, env.served).0;
    if fetched.Ok? {
      ApproveIs(cfg, c, s0, name, fetched.value);
    }
    TrustKeepsPins(cfg, c, s1, name, env);
    AttestationKeepsPins(cfg, c, EnforceTrust(cfg, c, s1, name, env).0, name, env);
  }

  lemma EffectOfPins(cfg: Config, c: Suite, s: State, s': State, t: State, t': State, name: Text, card: Card)
    requires CallEffect(cfg, c, s, s', name, card)
    requires t.pins == s.pins && t.queue == s.queue && t'.pins == s'.pins && t'.queue == s'.queue
    ensures CallEffect(cfg, c, t, t', name, card)
  {
  }

  lemma CallIs(cfg: Config, c: Suite, s: State, name: Text, env: CallEnv)
    requires Shape(c, s)
    ensures var s' := Call(cfg, c, s, name, env).0;
      (forall n | n in s'.cache :: VerifyGlyph(c, s'.cache[n])) &&
      exists card :: CallEffect(cfg, c, s, s', name, card)
  {
    GetCardKeepsCache(c, s, name, env.served);
    CallPins(cfg, c, s, name, env);
    var (s0, fetched) := CachedCard(c, s, name, env.served);
    var s1, s' := EnsureApproved(cfg, c, s, name, env.served).0, Call(cfg, c, s, name, env).0;
    if fetched.Ok? {
      ApproveIs(cfg, c, s0, name, fetched.value);
      EffectOfPins(cfg, c, s0, s1, s, s', name, fetched.value);
    } else {
      assert CallEffect(cfg, c, s, s', name, Card([], [], map[], None, None));
    }
  }

  // ----- Every step keeps the shape -----

  lemma CallKeepsShape(cfg: Config, c: Suite, s: State, name: Text, env: CallEnv)
    requires Shape(c, s)
    ensures Shape(c, Call(cfg, c, s, name, env).0)
  {
    CallIs(cfg, c, s, name, env);
    var s' := Call(cfg, c, s, name, env).0;
    var card :| CallEffect(cfg, c, s, s', name, card);
    if name in s.pins {
      EnqueueIs(s.queue, Entry(name, card, Diff(s.pins[name].card, card)));
    }
  }

  lemma {:induction false} DecideAllKeepsShape(cfg: Config, c: Suite, s: State, reports: seq<AuditReport>)
    requires Shape(c, s)
    requires forall r, e | r in reports && Holds(s.queue, e) :: Describes(c, r, e)
    ensures Shape(c, DecideAll(cfg, s, reports).0)
    decreases |reports|
  {
    if reports != [] {
      assert reports == [reports[0]] + reports[1..];
      DecideIs(cfg, c, s, reports[0]);
      DequeueIs(s.queue, reports[0].toolName);
      DecideAllKeepsShape(cfg, c, Decide(cfg, s, reports[0]).0, reports[1..]);
    }
  }

  lemma NextKeepsShape(cfg: Config, c: Suite, s: State, step: Step)
    requires Shape(c, s)
    ensures Shape(c, Next(cfg, c, s, step))
  {
    match step
    case Fetch(name, served) => GetCardKeepsCache(c, s, name, served);
    case CallTool(name, env) => CallKeepsShape(cfg, c, s, name, env);
    case HumanApproves(card, reinstate) =>
    case HumanRevokes(tool) =>
    case Audit(audits) =>
      AuditDescribes(c, s, s.queue, audits, s.queue);
      DecideAllKeepsShape(cfg, c, s, AuditAll(c, s, s.queue, audits));
  }

  lemma {:induction false} RunKeepsShape(cfg: Config, c: Suite, s: State, steps: seq<Step>)
    requires Shape(c, s)
    ensures Shape(c, Run(cfg, c, s, steps))
    decreases |steps|
  {
    if steps != [] {
      NextKeepsShape(cfg, c, s, steps[0]);
      RunKeepsShape(cfg, c, Next(cfg, c, s, steps[0]), steps[1..]);
    }
  }

  // ----- What a human does to a tool with a parked update -----

  /** The human approves the card, and an update of its tool is parked. */
  ghost predicate ApprovesBeside(c: Suite, s: State, step: Step, t: Text, e: Entry) {
    step.HumanApproves? && step.card.name == t && ApproveCard(c, s, step.card, step.reinstate).1.None? &&
    Holds(s.queue, e) && e.toolName == t
  }

  /** The card approved beside a parked update agrees with the pin on every breaking field. */
  ghost predicate Undisturbed(c: Suite, s: State, step: Step, t: Text) {
    forall e | ApprovesBeside(c, s, step, t, e) :: t in s.pins && SameBreaking(s.pins[t].card, step.card)
  }

  /** The parked update fits the card approved beside it. */
  ghost predicate FittingStep(c: Suite, s: State, step: Step, t: Text) {
    forall e | ApprovesBeside(c, s, step, t, e) :: Fits(e.diff, step.card, e.newCard)
  }

  // ----- Agreement and fit are kept -----

  lemma CallKeepsParked(cfg: Config, c: Suite, s: State, name: Text, env: CallEnv, t: Text)
    requires Shape(c, s)
    ensures Agreeing(s, t) ==> Agreeing(Call(cfg, c, s, name, env).0, t)
    ensures Fitting(s, t) ==> Fitting(Call(cfg, c, s, name, env).0, t)
  {
    CallIs(cfg, c, s, name, env);
    var s' := Call(cfg, c, s, name, env).0;
    var card :| CallEffect(cfg, c, s, s', name, card);
    if name == t && t in s.pins {
      EffectKeepsParked(cfg, c, s, s', t, card);
    } else if t in s.pins {
      EffectElsewhere(cfg, c, s, s', name, card, t);
    }
  }

  lemma EffectElsewhere(cfg: Config, c: Suite, s: State, s': State, name: Text, card: Card, t: Text)
    requires Shape(c, s) && CallEffect(cfg, c, s, s', name, card) && name != t && t in s.pins
    ensures t in s'.pins && s'.pins[t] == s.pins[t]
    ensures forall e | Holds(s'.queue, e) && e.toolName == t :: Holds(s.queue, e)
  {
    if name in s.pins {
      EnqueueIs(s.queue, Entry(name, card, Diff(s.pins[name].card, card)));
    }
  }

  lemma EffectKeepsParked(cfg: Config, c: Suite, s: State, s': State, t: Text, card: Card)
    requires Shape(c, s) && CallEffect(cfg, c, s, s', t, card) && t in s.pins
    ensures Agreeing(s, t) ==> Agreeing(s', t)
    ensures Fitting(s, t) ==> Fitting(s', t)
  {
    var p := s.pins[t].card;
    var e := Entry(t, card, Diff(p, card));
    EnqueueIs(s.queue, e);
    FreshDiffExplains(e, p);
    ExplainsFits(e, p);
    NotRequiredIsSameBreaking(p, card);
    forall x | Holds(s'.queue, x) && x.toolName == t
      ensures Agreeing(s, t) ==> Explains(x, s'.pins[t].card)
      ensures Fitting(s, t) ==> Fits(x.diff, s'.pins[t].card, x.newCard)
    {
      if x != e && Holds(s.queue, x) && SameBreaking(p, card) {
        if Explains(x, p) { ExplainsMoves(x, p, card); }
        if Fits(x.diff, p, x.newCard) { FitsMoves(x.diff, p, card, x.newCard); }
      }
    }
  }

  lemma {:induction false} DecideAllKeepsParked(cfg: Config, c: Suite, s: State, reports: seq<AuditReport>, t: Text)
    requires Shape(c, s)
    requires forall r, e | r in reports && Holds(s.queue, e) :: Describes(c, r, e)
    ensures Agreeing(s, t) ==> Agreeing(DecideAll(cfg, s, reports).0, t)
    ensures Fitting(s, t) ==> Fitting(DecideAll(cfg, s, reports).0, t)
    decreases |reports|
  {
    if reports != [] {
      assert reports == [reports[0]] + reports[1..];
      DecideIs(cfg, c, s, reports[0]);
      DequeueIs(s.queue, reports[0].toolName);
      DecideAllKeepsParked(cfg, c, Decide(cfg, s, reports[0]).0, reports[1..], t);
    }
  }

  lemma QuietStepKeepsParked(cfg: Config, c: Suite, s: State, step: Step, t: Text)
    requires Shape(c, s) && !step.HumanApproves?
    ensures Agreeing(s, t) ==> Agreeing(Next(cfg, c, s, step), t)
    ensures Fitting(s, t) ==> Fitting(Next(cfg, c, s, step), t)
  {
    match step
    case Fetch(name, served) => GetCardKeepsCache(c, s, name, served);
    case CallTool(name, env) => CallKeepsParked(cfg, c, s, name, env, t);
    case HumanRevokes(tool) =>
    case Audit(audits) =>
      AuditDescribes(c, s, s.queue, audits, s.queue);
      DecideAllKeepsParked(cfg, c, s, AuditAll(c, s, s.queue, audits), t);
  }

  /**
   A step keeps the parked diff in agreement with the pin exactly when the human, if any, approves
   beside it a card that changes no breaking field of the pin.
   */
  lemma NextKeepsAgreeing(cfg: Config, c: Suite, s: State, step: Step, t: Text)
    requires Shape(c, s) && Agreeing(s, t)
    ensures Agreeing(Next(cfg, c, s, step), t) <==> Undisturbed(c, s, step, t)
  {
    if step.HumanApproves? {
      var s' := Next(cfg, c, s, step);
      forall e | Holds(s.queue, e) && e.toolName == t ensures
        ApprovesBeside(c, s, step, t, e) ==> (Explains(e, s'.pins[t].card) <==> SameBreaking(s.pins[t].card, step.card))
      {
        ExplainsExactly(e, s.pins[t].card, step.card);
      }
    } else {
      QuietStepKeepsParked(cfg, c, s, step, t);
    }
  }

  /** A step keeps the parked update fitting the pin exactly when it fits the card a human approves beside it. */
  lemma NextKeepsFitting(cfg: Config, c: Suite, s: State, step: Step, t: Text)
    requires Shape(c, s) && Fitting(s, t)
    ensures Fitting(Next(cfg, c, s, step), t) <==> FittingStep(c, s, step, t)
  {
    if !step.HumanApproves? {
      QuietStepKeepsParked(cfg, c, s, step, t);
    }
  }

  ghost predicate FittingRun(cfg: Config, c: Suite, s: State, steps: seq<Step>, t: Text)
    decreases |steps|
  {
    steps != [] ==> FittingStep(c, s, steps[0], t) && FittingRun(cfg, c, Next(cfg, c, s, steps[0]), steps[1..], t)
  }

  /** No unfit update is left where every card a human approved beside a parked update of the tool was one the update fits. */
  lemma {:induction false} RunKeepsFitting(cfg: Config, c: Suite, s: State, steps: seq<Step>, t: Text)
    requires Shape(c, s) && Fitting(s, t) && FittingRun(cfg, c, s, steps, t)
    ensures Shape(c, Run(cfg, c, s, steps)) && Fitting(Run(cfg, c, s, steps), t)
    decreases |steps|
  {
    if steps != [] {
      NextKeepsShape(cfg, c, s, steps[0]);
      NextKeepsFitting(cfg, c, s, steps[0], t);
      RunKeepsFitting(cfg, c, Next(cfg, c, s, steps[0]), steps[1..], t);
    }
  }

  // ----- What one step does to one pin -----

  ghost predicate Bounded(cfg: Config, p: Card, q: Card) {
    BoundedBy(Allows(cfg), p, q)
  }

  /** The policy in force; none at all allows nothing. */
  function Allows(cfg: Config): Policy {
    if cfg.policy.Some? then cfg.policy.value else EMPTY_POLICY
  }

  lemma BoundedTransitive(cfg: Config, p: Card, q: Card, r: Card)
    requires Bounded(cfg, p, q) && Bounded(cfg, q, r)
    ensures Bounded(cfg, p, r)
  {
    if !Allows(cfg).allowBreaking {
      forall d: DiffField | Gating(d) ensures Agree(p, r, d) {
        assert Agree(p, q, d) && Agree(q, r, d);
      }
    }
  }

  lemma BoundedIfSame(cfg: Config, p: Card, q: Card)
    requires SameBreaking(p, q)
    ensures Bounded(cfg, p, q)
  {
    SameBreakingConsequences(p, q);
  }

  lemma PromotionIsBounded(cfg: Config, c: Suite, s: State, s': State, r: AuditReport, e: Entry)
    requires Fitting(s, r.toolName) && Promoted(cfg, c, s, s', r, e) && r.toolName in s.pins
    ensures Bounded(cfg, s.pins[r.toolName].card, e.newCard)
  {
    FitsExactly(e.diff, s.pins[r.toolName].card, e.newCard);
  }

  lemma DecideBounded(cfg: Config, c: Suite, s: State, r: AuditReport, t: Text)
    requires Shape(c, s) && Fitting(s, t) && t in s.pins
    requires forall e | Holds(s.queue, e) :: Describes(c, r, e)
    ensures var s' := Decide(cfg, s, r).0;
      t in s'.pins && Bounded(cfg, s.pins[t].card, s'.pins[t].card) && Shape(c, s') && Fitting(s', t) &&
      forall e | Holds(s'.queue, e) :: Holds(s.queue, e)
  {
    BoundedIfSame(cfg, s.pins[t].card, s.pins[t].card);
    var (s', promoted) := Decide(cfg, s, r);
    DecideIs(cfg, c, s, r);
    DequeueIs(s.queue, r.toolName);
    if promoted {
      var e :| Promoted(cfg, c, s, s', r, e);
      if r.toolName == t { PromotionIsBounded(cfg, c, s, s', r, e); }
    }
  }

  lemma {:induction false} DecideAllBounded(cfg: Config, c: Suite, s: State, reports: seq<AuditReport>, t: Text)
    requires Shape(c, s) && Fitting(s, t) && t in s.pins
    requires forall r, e | r in reports && Holds(s.queue, e) :: Describes(c, r, e)
    ensures var s' := DecideAll(cfg, s, reports).0;
      t in s'.pins && Bounded(cfg, s.pins[t].card, s'.pins[t].card)
    decreases |reports|
  {
    if reports == [] {
      BoundedIfSame(cfg, s.pins[t].card, s.pins[t].card);
    } else {
      assert reports == [reports[0]] + reports[1..];
      var s1 := Decide(cfg, s, reports[0]).0;
      DecideBounded(cfg, c, s, reports[0], t);
      DecideAllBounded(cfg, c, s1, reports[1..], t);
      BoundedTransitive(cfg, s.pins[t].card, s1.pins[t].card, DecideAll(cfg, s, reports).0.pins[t].card);
    }
  }

  lemma CallBounded(cfg: Config, c: Suite, s: State, name: Text, env: CallEnv, t: Text)
    requires Shape(c, s) && t in s.pins
    ensures var s' := Call(cfg, c, s, name, env).0; t in s'.pins && Bounded(cfg, s.pins[t].card, s'.pins[t].card)
  {
    var p := s.pins[t].card;
    BoundedIfSame(cfg, p, p);
    CallIs(cfg, c, s, name, env);
    var s' := Call(cfg, c, s, name, env).0;
    var card :| CallEffect(cfg, c, s, s', name, card);
    NotRequiredIsSameBreaking(p, card);
    if SameBreaking(p, card) {
      BoundedIfSame(cfg, p, card);
    }
  }

  lemma NextBounded(cfg: Config, c: Suite, s: State, step: Step, t: Text)
    requires Shape(c, s) && Fitting(s, t) && t in s.pins
    requires step.HumanApproves? ==> step.card.name != t
    ensures var s' := Next(cfg, c, s, step);
      t in s'.pins && Bounded(cfg, s.pins[t].card, s'.pins[t].card)
  {
    BoundedIfSame(cfg, s.pins[t].card, s.pins[t].card);
    match step
    case Fetch(name, served) => GetCardKeepsCache(c, s, name, served);
    case CallTool(name, env) => CallBounded(cfg, c, s, name, env, t);
    case HumanApproves(card, reinstate) =>
    case HumanRevokes(tool) =>
    case Audit(audits) =>
      AuditDescribes(c, s, s.queue, audits, s.queue);
      DecideAllBounded(cfg, c, s, AuditAll(c, s, s.queue, audits), t);
  }

  // ----- Main results over runs -----

  /** No human approves the tool. */
  predicate NotApproved(steps: seq<Step>, t: Text) {
    forall i :: 0 <= i < |steps| && steps[i].HumanApproves? ==> steps[i].card.name != t
  }

  /**
   As long as no human approves the tool itself, and whatever humans do to other tools: without
   `allowBreaking` every breaking field of the pinned card stays as it is; without
   `allowKeyChange` the pinned key does; without `allowRiskEscalation` the risk tier never rises.
   */
  lemma {:induction false} PinsStayWithinPolicy(cfg: Config, c: Suite, s: State, steps: seq<Step>, t: Text)
    requires Shape(c, s) && Fitting(s, t) && t in s.pins
    requires NotApproved(steps, t)
    ensures var s' := Run(cfg, c, s, steps);
      t in s'.pins && Bounded(cfg, s.pins[t].card, s'.pins[t].card)
    decreases |steps|
  {
    if steps == [] {
      BoundedIfSame(cfg, s.pins[t].card, s.pins[t].card);
    } else {
      var s1 := Next(cfg, c, s, steps[0]);
      NextKeepsShape(cfg, c, s, steps[0]);
      NextKeepsFitting(cfg, c, s, steps[0], t);
      NextBounded(cfg, c, s, steps[0], t);
      PinsStayWithinPolicy(cfg, c, s1, steps[1..], t);
      BoundedTransitive(cfg, s.pins[t].card, s1.pins[t].card, Run(cfg, c, s, steps).pins[t].card);
    }
  }

  /**
   By name, over every such run: without `allowBreaking` the pin keeps its version, idempotency, input,
   output, provider, required scopes, attestation and key, and the side effects, reversibility, risk
   tier and confirmation part of its cost; without `allowKeyChange` it keeps its key.
   */
  lemma NamedFieldsStay(cfg: Config, c: Suite, s: State, steps: seq<Step>, t: Text)
    requires Shape(c, s) && Fitting(s, t) && t in s.pins && NotApproved(steps, t)
    ensures var s' := Run(cfg, c, s, steps);
      t in s'.pins && var p, q := s.pins[t].card, s'.pins[t].card;
        (cfg.policy.None? || !cfg.policy.value.allowBreaking ==> SameContract(p, q)) &&
        (cfg.policy.None? || !cfg.policy.value.allowKeyChange ==> p.publicKey == q.publicKey) &&
        (cfg.policy.None? || !cfg.policy.value.allowRiskEscalation ==>
          RiskRank(CostNamed(q, "riskTier")) <= RiskRank(CostNamed(p, "riskTier")))
  {
    PinsStayWithinPolicy(cfg, c, s, steps, t);
    var p, q := s.pins[t].card, Run(cfg, c, s, steps).pins[t].card;
    SameBreakingByName(p, q);
    CostNames(p);
    CostNames(q);
  }

  /** The same from an empty client on, after any history that left no update parked for the tool that does not fit its pin. */
  lemma GovernedFromTheStart(cfg: Config, c: Suite, before: seq<Step>, after: seq<Step>, t: Text)
    requires Fitting(Run(cfg, c, EMPTY, before), t)
    requires t in Run(cfg, c, EMPTY, before).pins
    requires NotApproved(after, t)
    ensures var s := Run(cfg, c, EMPTY, before);
      var s' := Run(cfg, c, s, after);
      t in s'.pins && Bounded(cfg, s.pins[t].card, s'.pins[t].card)
  {
    RunKeepsShape(cfg, c, EMPTY, before);
    PinsStayWithinPolicy(cfg, c, Run(cfg, c, EMPTY, before), after, t);
  }

  // ----- The condition on approvals is exact -----

  /** The client under another policy. */
  function Under(cfg: Config, policy: Policy): Config {
    cfg.(policy := Some(policy))
  }

  /** The pin of the tool is the parked card, which is no longer parked. */
  ghost predicate Replaced(s: State, e: Entry) {
    e.toolName in s.pins && s.pins[e.toolName].card == e.newCard && forall x | Holds(s.queue, x) :: x.toolName != e.toolName
  }

  ghost predicate Waiting(s: State, e: Entry) {
    Holds(s.queue, e) && e.toolName in s.pins && !s.pins[e.toolName].revoked
  }

  lemma DecideReplaces(cfg: Config, c: Suite, s: State, r: AuditReport, e: Entry)
    requires Keyed(s.queue) && (Waiting(s, e) || Replaced(s, e)) && forall x | Holds(s.queue, x) :: Describes(c, r, x)
    ensures var s' := Decide(cfg, s, r).0;
      Keyed(s'.queue) && (Waiting(s', e) || Replaced(s', e)) && forall x | Holds(s'.queue, x) :: Holds(s.queue, x)
    ensures r.toolName == e.toolName && cfg.policy.Some? && Promotes(r, cfg.policy.value) ==> Replaced(Decide(cfg, s, r).0, e)
    ensures Replaced(s, e) ==> Replaced(Decide(cfg, s, r).0, e)
  {
    DequeueIs(s.queue, r.toolName);
    ParkedFinds(s.queue, r.toolName);
    if Waiting(s, e) && r.toolName == e.toolName {
      SameToolSameEntry(s.queue, e, Get(s.queue, r.toolName).value);
    }
  }

  lemma {:induction false} DecideAllReplaces(cfg: Config, c: Suite, s: State, reports: seq<AuditReport>, e: Entry)
    requires Keyed(s.queue) && (Waiting(s, e) || Replaced(s, e))
    requires forall r, x | r in reports && Holds(s.queue, x) :: Describes(c, r, x)
    requires Replaced(s, e) ||
      exists r :: r in reports && r.toolName == e.toolName && cfg.policy.Some? && Promotes(r, cfg.policy.value)
    ensures Replaced(DecideAll(cfg, s, reports).0, e)
    decreases |reports|
  {
    if reports != [] {
      assert reports == [reports[0]] + reports[1..];
      DecideReplaces(cfg, c, s, reports[0], e);
      DecideAllReplaces(cfg, c, Decide(cfg, s, reports[0]).0, reports[1..], e);
    }
  }

  /** An audit that finds no manifest, and whose verifiers accept every attestation. */
  const LENIENT: AuditEnv := AuditEnv(_ => NoManifest, _ => true)

  lemma {:induction false} AuditedEntry(c: Suite, s: State, entries: JsMap<Text, Entry>, e: Entry)
    requires Item(e.toolName, e) in entries
    ensures AuditEntry(c, s, e, LENIENT) in AuditAll(c, s, entries, LENIENT)
  {
    if entries[0] != Item(e.toolName, e) {
      AuditedEntry(c, s, entries[1..], e);
    }
  }

  lemma LenientAuditPasses(c: Suite, s: State, e: Entry, policy: Policy)
    requires VerifyGlyph(c, e.newCard) && !policy.requireManifest && !policy.requireAttestation
    requires Promotes(PassedAudit(e.toolName, e.diff, e.newCard), policy)
    ensures Promotes(AuditEntry(c, s, e, LENIENT), policy)
  {
  }

  /** The human's approval, and an audit right after it. */
  function ApprovedAndAudited(cfg: Config, c: Suite, s: State, q: Card, reinstate: bool, audits: AuditEnv): State {
    Next(cfg, c, Next(cfg, c, s, HumanApproves(q, reinstate)), Audit(audits))
  }

  /** An audit under a policy that promotes the parked update replaces the pin by it. */
  lemma AuditReplaces(cfg: Config, c: Suite, s: State, e: Entry)
    requires Shape(c, s) && Waiting(s, e) && cfg.resilientUpdates && VerifyGlyph(c, e.newCard)
    requires cfg.policy.Some? && !cfg.policy.value.requireManifest && !cfg.policy.value.requireAttestation
    requires Promotes(PassedAudit(e.toolName, e.diff, e.newCard), cfg.policy.value)
    ensures Replaced(Next(cfg, c, s, Audit(LENIENT)), e)
  {
    var r := AuditEntry(c, s, e, LENIENT);
    LenientAuditPasses(c, s, e, cfg.policy.value);
    AuditDescribes(c, s, s.queue, LENIENT, s.queue);
    AuditedEntry(c, s, s.queue, e);
    assert r.toolName == e.toolName;
    DecideAllReplaces(cfg, c, s, AuditAll(c, s, s.queue, LENIENT), e);
  }

  /** If the parked update does not fit the card approved beside it, some policy lets the next audit break its own bounds. */
  lemma UnfitApprovalBreaksPolicy(cfg: Config, c: Suite, s: State, e: Entry, q: Card, reinstate: bool)
    requires Shape(c, s) && cfg.resilientUpdates && VerifyGlyph(c, e.newCard) && !Fits(e.diff, q, e.newCard)
    requires ApprovesBeside(c, s, HumanApproves(q, reinstate), e.toolName, e)
    ensures var policy := Withholding(e.diff, q, e.newCard);
      var s' := ApprovedAndAudited(Under(cfg, policy), c, s, q, reinstate, LENIENT);
      e.toolName in s'.pins && s'.pins[e.toolName].card == e.newCard && !BoundedBy(policy, q, e.newCard)
  {
    var policy := Withholding(e.diff, q, e.newCard);
    var s1 := Next(Under(cfg, policy), c, s, HumanApproves(q, reinstate));
    NextKeepsShape(Under(cfg, policy), c, s, HumanApproves(q, reinstate));
    UnfitBreaksBounds(e.toolName, e.diff, q, e.newCard);
    assert !policy.requireManifest && !policy.requireAttestation;
    AuditReplaces(Under(cfg, policy), c, s1, e);
  }

  lemma FitApprovalIsBounded(cfg: Config, c: Suite, s: State, e: Entry, q: Card, reinstate: bool, audits: AuditEnv)
    requires Shape(c, s) && ApprovesBeside(c, s, HumanApproves(q, reinstate), e.toolName, e) && Fits(e.diff, q, e.newCard)
    ensures var s' := ApprovedAndAudited(cfg, c, s, q, reinstate, audits);
      e.toolName in s'.pins && Bounded(cfg, q, s'.pins[e.toolName].card)
  {
    var step, t := HumanApproves(q, reinstate), e.toolName;
    var s1 := Next(cfg, c, s, step);
    NextKeepsShape(cfg, c, s, step);
    forall x | Holds(s1.queue, x) && x.toolName == t ensures x == e {
      SameToolSameEntry(s.queue, x, e);
    }
    NextBounded(cfg, c, s1, Audit(audits), t);
  }

  /**
   Approving a card beside a parked update is harmless, under every policy and every audit that may
   follow, exactly when the update fits the card.
   */
  lemma ApprovalHarmlessExactly(cfg: Config, c: Suite, s: State, e: Entry, q: Card, reinstate: bool)
    requires Shape(c, s) && cfg.resilientUpdates && VerifyGlyph(c, e.newCard)
    requires ApprovesBeside(c, s, HumanApproves(q, reinstate), e.toolName, e)
    ensures Fits(e.diff, q, e.newCard) <==>
      forall policy: Policy, audits: AuditEnv :: BoundedAfterAudit(Under(cfg, policy), c, s, e.toolName, q, reinstate, audits)
  {
    if Fits(e.diff, q, e.newCard) {
      forall policy: Policy, audits: AuditEnv ensures BoundedAfterAudit(Under(cfg, policy), c, s, e.toolName, q, reinstate, audits) {
        FitApprovalIsBounded(Under(cfg, policy), c, s, e, q, reinstate, audits);
      }
    } else {
      UnfitApprovalBreaksPolicy(cfg, c, s, e, q, reinstate);
      assert !BoundedAfterAudit(Under(cfg, Withholding(e.diff, q, e.newCard)), c, s, e.toolName, q, reinstate, LENIENT);
    }
  }

  ghost predicate BoundedAfterAudit(cfg: Config, c: Suite, s: State, t: Text, q: Card, reinstate: bool, audits: AuditEnv) {
    var s' := ApprovedAndAudited(cfg, c, s, q, reinstate, audits);
    t in s'.pins && Bounded(cfg, q, s'.pins[t].card)
  }

  /** Approving the parked card itself is harmless. */
  lemma ParkedCardFits(diff: CardDiff, n: Card)
    ensures Fits(diff, n, n)
  {
    assert SameBreaking(n, n);
  }

  ghost predicate BoundedAfter(cfg: Config, c: Suite, s: State, steps: seq<Step>, t: Text) {
    var s' := Run(cfg, c, s, steps);
    t in s.pins && t in s'.pins && Bounded(cfg, s.pins[t].card, s'.pins[t].card)
  }

  lemma UnfitStateBreaksPolicy(cfg: Config, c: Suite, s: State, e: Entry)
    requires Shape(c, s) && cfg.resilientUpdates && Waiting(s, e) && VerifyGlyph(c, e.newCard)
    requires !Fits(e.diff, s.pins[e.toolName].card, e.newCard)
    ensures exists policy, steps :: NotApproved(steps, e.toolName) && !BoundedAfter(Under(cfg, policy), c, s, steps, e.toolName)
  {
    var q := s.pins[e.toolName].card;
    var policy, steps := Withholding(e.diff, q, e.newCard), [Audit(LENIENT)];
    UnfitBreaksBounds(e.toolName, e.diff, q, e.newCard);
    assert !policy.requireManifest && !policy.requireAttestation;
    AuditReplaces(Under(cfg, policy), c, s, e);
    assert steps[1..] == [];
    assert Run(Under(cfg, policy), c, s, steps) == Next(Under(cfg, policy), c, s, Audit(LENIENT));
    assert NotApproved(steps, e.toolName) && !BoundedAfter(Under(cfg, policy), c, s, steps, e.toolName);
  }

  /**
   The invariant is exact: an unrevoked pin stays within every policy, over every run in which no
   human approves the tool, exactly when the verifiable update parked for it, if any, fits it.
   */
  lemma StaysWithinEveryPolicyExactly(cfg: Config, c: Suite, s: State, t: Text)
    requires Shape(c, s) && cfg.resilientUpdates && t in s.pins && !s.pins[t].revoked
    requires forall e | Holds(s.queue, e) && e.toolName == t :: VerifyGlyph(c, e.newCard)
    ensures Fitting(s, t) <==>
      forall policy, steps :: NotApproved(steps, t) ==> BoundedAfter(Under(cfg, policy), c, s, steps, t)
  {
    if Fitting(s, t) {
      forall policy, steps | NotApproved(steps, t) ensures BoundedAfter(Under(cfg, policy), c, s, steps, t) {
        PinsStayWithinPolicy(Under(cfg, policy), c, s, steps, t);
      }
    } else {
      var e :| Holds(s.queue, e) && e.toolName == t && !Fits(e.diff, s.pins[t].card, e.newCard);
      UnfitStateBreaksPolicy(cfg, c, s, e);
    }
  }

  // ----- Revocation -----

  /** A revoked pin stays as it is until a human approves the tool with `reinstate`. */
  lemma {:induction false} RevokedStaysRevoked(cfg: Config, c: Suite, s: State, steps: seq<Step>, t: Text)
    requires Shape(c, s) && t in s.pins && s.pins[t].revoked
    requires forall i :: 0 <= i < |steps| && steps[i].HumanApproves? && steps[i].card.name == t ==> !steps[i].reinstate
    ensures t in Run(cfg, c, s, steps).pins && Run(cfg, c, s, steps).pins[t] == s.pins[t]
    decreases |steps|
  {
    if steps != [] {
      NextKeepsShape(cfg, c, s, steps[0]);
      RevokedThroughStep(cfg, c, s, steps[0], t);
      RevokedStaysRevoked(cfg, c, Next(cfg, c, s, steps[0]), steps[1..], t);
    }
  }

  /** The same after any history of an empty client. */
  lemma RevokedFromTheStart(cfg: Config, c: Suite, before: seq<Step>, after: seq<Step>, t: Text)
    requires t in Run(cfg, c, EMPTY, before).pins && Run(cfg, c, EMPTY, before).pins[t].revoked
    requires forall i :: 0 <= i < |after| && after[i].HumanApproves? && after[i].card.name == t ==> !after[i].reinstate
    ensures var s := Run(cfg, c, EMPTY, before);
      t in Run(cfg, c, s, after).pins && Run(cfg, c, s, after).pins[t] == s.pins[t]
  {
    RunKeepsShape(cfg, c, EMPTY, before);
    RevokedStaysRevoked(cfg, c, Run(cfg, c, EMPTY, before), after, t);
  }

  lemma RevokedThroughStep(cfg: Config, c: Suite, s: State, step: Step, t: Text)
    requires Shape(c, s) && t in s.pins && s.pins[t].revoked
    requires step.HumanApproves? && step.card.name == t ==> !step.reinstate
    ensures t in Next(cfg, c, s, step).pins && Next(cfg, c, s, step).pins[t] == s.pins[t]
  {
    match step
    case Fetch(name, served) =>
    case CallTool(name, env) => CallIs(cfg, c, s, name, env);
    case HumanApproves(card, reinstate) =>
    case HumanRevokes(tool) =>
    case Audit(audits) =>
      AuditDescribes(c, s, s.queue, audits, s.queue);
      RevokedThroughDecisions(cfg, c, s, AuditAll(c, s, s.queue, audits), t);
  }

  lemma {:induction false} RevokedThroughDecisions(cfg: Config, c: Suite, s: State, reports: seq<AuditReport>, t: Text)
    requires Shape(c, s) && t in s.pins && s.pins[t].revoked
    requires forall r, e | r in reports && Holds(s.queue, e) :: Describes(c, r, e)
    ensures t in DecideAll(cfg, s, reports).0.pins && DecideAll(cfg, s, reports).0.pins[t] == s.pins[t]
    decreases |reports|
  {
    if reports != [] {
      assert reports == [reports[0]] + reports[1..];
      DecideIs(cfg, c, s, reports[0]);
      DequeueIs(s.queue, reports[0].toolName);
      RevokedThroughDecisions(cfg, c, Decide(cfg, s, reports[0]).0, reports[1..], t);
    }
  }

  /**
   A call that reaches the server leaves a pin that is not revoked, before and after. Either it
   pins the very card presented, or the presented card is parked beside the stable pin.
   */
  lemma PostedOnlyWithPin(cfg: Config, c: Suite, s: State, name: Text, env: CallEnv)
    requires Shape(c, s) && Call(cfg, c, s, name, env).1.Posted?
    ensures var s' := Call(cfg, c, s, name, env).0;
      name in s'.pins && !s'.pins[name].revoked && (name in s.pins ==> !s.pins[name].revoked) &&
      var fetched := CachedCard(c, s, name, env.served).1;
      fetched.Ok? && fetched.value.name == name &&
      ((s'.pins[name].card.id == fetched.value.id && s'.pins[name].card.publicKey == fetched.value.publicKey) ||
       (cfg.resilientUpdates && name in s.pins && s'.pins == s.pins &&
        Get(s'.queue, name) == Some(Entry(name, fetched.value, Diff(s.pins[name].card, fetched.value)))))
  {
    GetCardKeepsCache(c, s, name, env.served);
    CallPins(cfg, c, s, name, env);
    PostedIsApproved(cfg, c, s, name, env);
    var (s0, fetched) := CachedCard(c, s, name, env.served);
    ApprovedOnlyWithPin(cfg, c, s0, name, fetched.value);
  }

  /** After any history of an empty client, a tool whose pin is revoked is never called. */
  lemma RevokedIsNeverPosted(cfg: Config, c: Suite, steps: seq<Step>, name: Text, env: CallEnv)
    requires var s := Run(cfg, c, EMPTY, steps); name in s.pins && s.pins[name].revoked
    ensures Call(cfg, c, Run(cfg, c, EMPTY, steps), name, env).1.Blocked?
  {
    RunKeepsShape(cfg, c, EMPTY, steps);
    if Call(cfg, c, Run(cfg, c, EMPTY, steps), name, env).1.Posted? {
      PostedOnlyWithPin(cfg, c, Run(cfg, c, EMPTY, steps), name, env);
    }
  }

  /** After any history of an empty client, a returned envelope passed all six receipt checks against an unrevoked pin. */
  lemma ReturnedFromTheStart(cfg: Config, c: Suite, steps: seq<Step>, name: Text, env: CallEnv)
    requires cfg.secureMode && cfg.verifyReceipts
    requires var (_, outcome) := Call(cfg, c, Run(cfg, c, EMPTY, steps), name, env); outcome.Posted? && outcome.result.Ok?
    ensures var (s', outcome) := Call(cfg, c, Run(cfg, c, EMPTY, steps), name, env);
      name in s'.pins && !s'.pins[name].revoked && Accepts(c, outcome.result.value, s'.pins[name].card, env.callId)
  {
    RunKeepsShape(cfg, c, EMPTY, steps);
    ReturnedEnvelopeMatchesPin(cfg, c, Run(cfg, c, EMPTY, steps), name, env);
  }

  lemma PostedIsApproved(cfg: Config, c: Suite, s: State, name: Text, env: CallEnv)
    requires Call(cfg, c, s, name, env).1.Posted?
    ensures EnsureApproved(cfg, c, s, name, env.served).1.None? && CachedCard(c, s, name, env.served).1.Ok?
  {
  }

  lemma ApprovedOnlyWithPin(cfg: Config, c: Suite, s: State, name: Text, card: Card)
    requires Shape(c, s) && Approve(cfg, c, s, name, card).1.None?
    ensures var s' := Approve(cfg, c, s, name, card).0;
      name in s'.pins && !s'.pins[name].revoked && (name in s.pins ==> !s.pins[name].revoked) && card.name == name &&
      ((s'.pins[name].card.id == card.id && s'.pins[name].card.publicKey == card.publicKey) ||
       (cfg.resilientUpdates && name in s.pins && s'.pins == s.pins &&
        Get(s'.queue, name) == Some(Entry(name, card, Diff(s.pins[name].card, card)))))
  {
    if name in s.pins {
      var e := Entry(name, card, Diff(s.pins[name].card, card));
      EnqueueIs(s.queue, e);
      ParkedFinds(Put(s.queue, name, e), name);
      assert Holds(Put(s.queue, name, e), e);
      SameToolSameEntry(Put(s.queue, name, e), Get(Put(s.queue, name, e), name).value, e);
    }
  }

  // ----- Strict secure mode -----

  ghost predicate PinsVerified(c: Suite, s: State) {
    forall t | t in s.pins :: VerifyGlyph(c, s.pins[t].card)
  }

  lemma StrictStepPinsVerified(cfg: Config, c: Suite, s: State, step: Step)
    requires cfg.secureMode && !cfg.autoApproveReviewChanges && Shape(c, s) && PinsVerified(c, s)
    ensures PinsVerified(c, Next(cfg, c, s, step))
  {
    match step
    case Fetch(name, served) => GetCardKeepsCache(c, s, name, served);
    case CallTool(name, env) =>
      CallIs(cfg, c, s, name, env);
      var card :| CallEffect(cfg, c, s, Call(cfg, c, s, name, env).0, name, card);
    case HumanApproves(card, reinstate) =>
    case HumanRevokes(tool) =>
    case Audit(audits) =>
      AuditDescribes(c, s, s.queue, audits, s.queue);
      DecisionsPinVerified(cfg, c, s, AuditAll(c, s, s.queue, audits));
  }

  lemma {:induction false} StrictRunPinsVerified(cfg: Config, c: Suite, s: State, steps: seq<Step>)
    requires cfg.secureMode && !cfg.autoApproveReviewChanges && Shape(c, s) && PinsVerified(c, s)
    ensures Shape(c, Run(cfg, c, s, steps)) && PinsVerified(c, Run(cfg, c, s, steps))
    decreases |steps|
  {
    if steps != [] {
      NextKeepsShape(cfg, c, s, steps[0]);
      StrictStepPinsVerified(cfg, c, s, steps[0]);
      StrictRunPinsVerified(cfg, c, Next(cfg, c, s, steps[0]), steps[1..]);
    }
  }

  /** In strict secure mode, starting empty, every pinned card verifies and carries its tool's name. */
  lemma StrictPinsAreVerified(cfg: Config, c: Suite, steps: seq<Step>, t: Text)
    requires cfg.secureMode && !cfg.autoApproveReviewChanges
    requires t in Run(cfg, c, EMPTY, steps).pins
    ensures var pin := Run(cfg, c, EMPTY, steps).pins[t];
      VerifyGlyph(c, pin.card) && pin.card.name == t && pin.toolName == t
  {
    StrictRunPinsVerified(cfg, c, EMPTY, steps);
  }

  lemma {:induction false} DecisionsPinVerified(cfg: Config, c: Suite, s: State, reports: seq<AuditReport>)
    requires Shape(c, s) && PinsVerified(c, s)
    requires forall r, e | r in reports && Holds(s.queue, e) :: Describes(c, r, e)
    ensures PinsVerified(c, DecideAll(cfg, s, reports).0)
    decreases |reports|
  {
    if reports != [] {
      assert reports == [reports[0]] + reports[1..];
      var (s1, promoted) := Decide(cfg, s, reports[0]);
      DecideIs(cfg, c, s, reports[0]);
      DequeueIs(s.queue, reports[0].toolName);
      if promoted {
        var e :| Promoted(cfg, c, s, s1, reports[0], e);
        assert VerifyGlyph(c, e.newCard);
      }
      DecisionsPinVerified(cfg, c, s1, reports[1..]);
    }
  }

  /** In secure mode a returned envelope passed all six receipt checks against the pin. */
  lemma ReturnedEnvelopeMatchesPin(cfg: Config, c: Suite, s: State, name: Text, env: CallEnv)
    requires Shape(c, s) && cfg.secureMode && cfg.verifyReceipts
    requires Call(cfg, c, s, name, env).1.Posted? && Call(cfg, c, s, name, env).1.result.Ok?
    ensures var (s', outcome) := Call(cfg, c, s, name, env);
      name in s'.pins && !s'.pins[name].revoked && env.response == Some(outcome.result.value) &&
      Accepts(c, outcome.result.value, s'.pins[name].card, env.callId)
  {
    PostedOnlyWithPin(cfg, c, s, name, env);
  }
}
