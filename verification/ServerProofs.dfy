/** What every interleaving of prepare and call requests keeps. */
module ServerProofs {
  import opened Texts
  import opened Json
  import opened Canonical
  import opened Crypto
  import opened CardFields
  import opened Cards
  import opened Receipts
  import opened JsMaps
  import opened Stores
  import opened Server

  // ----- Confirmation tickets are used once, for what they were issued for -----

  /** Every required scope is a text, and the caller holds it. */
  predicate GatePassed(required: seq<Value>, caller: Option<seq<Text>>) {
    forall x | x in required :: x.Leaf? && x.scalar.Str? && caller.Some? && x.scalar.s in caller.value
  }

  /** The same for the scopes that a card requires by its field `requiredScopes`. */
  predicate HoldsScopes(card: Card, caller: Option<seq<Text>>) {
    match FieldNamed(card, "requiredScopes")
    case Some(Arr(items)) => GatePassed(items, caller)
    case _ => true
  }

  /** The card's cost has a true `requiresConfirmation`. */
  predicate AsksConfirmation(card: Card) {
    CostNamed(card, "requiresConfirmation").Some? && IsTruthy(CostNamed(card, "requiresConfirmation").value)
  }

  lemma ConfirmationIsAsked(g: Glyph)
    ensures RequiresConfirmed(g) <==> AsksConfirmation(g.card)
  {
    CostNames(g.card);
    TruthyIs(CostValue(g.card, RequiresConfirmation));
  }

  lemma ScopesAreHeld(g: Glyph, caller: Option<seq<Text>>)
    ensures GatePassed(g.Scopes(), caller) <==> HoldsScopes(g.card, caller)
  {
    RecordNames(g.card);
  }

  lemma ScopeGate(required: seq<Value>, caller: Option<seq<Text>>)
    ensures MissingScopes(required, caller) == [] <==> GatePassed(required, caller)
  {
    MissingScopesIs(required, caller);
    assert forall x :: Carries(caller, x) <==> x.Leaf? && x.scalar.Str? && caller.Some? && x.scalar.s in caller.value;
    if MissingScopes(required, caller) != [] {
      assert MissingScopes(required, caller)[0] in MissingScopes(required, caller);
    }
  }

  /** A registered glyph is signed, under its own name. */
  ghost predicate Registered(cfg: Config, s: State, g: Glyph) {
    g.card.name in s.glyphs && s.glyphs[g.card.name] == g
  }

  ghost predicate GlyphsSigned(cfg: Config, s: State) {
    forall n | n in s.glyphs :: s.glyphs[n].card.name == n &&
      s.glyphs[n].card.publicKey == Some(cfg.suite.publicKeyOf(cfg.privateKey)) &&
      s.glyphs[n].card.signature == Some(cfg.suite.sign(cfg.privateKey, s.glyphs[n].card.id))
  }

  ghost predicate RequestAdmitted(cfg: Config, s: State, r: Request) {
    Registered(cfg, s, r.glyph) && GatePassed(r.glyph.Scopes(), r.caller)
  }

  /** The token is held by a request that consumed it and has not checked it yet. */
  ghost predicate Held(s: State, id: nat, token: Text) {
    id in s.inflight && s.inflight[id].Consumed? && s.inflight[id].request.token == Some(token)
  }

  /** The token let a handler run. */
  ghost predicate Spent(s: State, i: nat, token: Text) {
    i < |s.runs| && RequiresConfirmed(s.runs[i].request.glyph) && s.runs[i].request.token == Some(token)
  }

  /** The run was confirmed by a ticket issued for the same glyph and the same input hash, before it expired. */
  ghost predicate Confirmed(cfg: Config, s: State, x: HandlerRun) {
    x.request.token.Some? && x.request.token.value in s.issued &&
    var i := s.issued[x.request.token.value];
    i.name == x.request.glyph.card.name && CanonicalHash(cfg.suite, i.input) == HashOf(cfg, x.request) && x.at < i.expiresAt
  }

  ghost predicate TicketsSound(cfg: Config, s: State) {
    Distinct(s.tickets) &&
    (forall x | x in s.tickets :: x.key in s.issued && x.value == Ticket(cfg, s.issued[x.key])) &&
    (forall id, token | Held(s, id, token) ::
      token in s.issued && s.inflight[id].ticket == Ticket(cfg, s.issued[token]) && Get(s.tickets, token).None?) &&
    (forall i, token | Spent(s, i, token) :: Get(s.tickets, token).None?)
  }

  /** No ticket is held or spent twice. */
  ghost predicate UsedOnce(s: State) {
    (forall id, other, token | Held(s, id, token) && Held(s, other, token) :: id == other) &&
    (forall id, i, token | Held(s, id, token) && Spent(s, i, token) :: false) &&
    (forall i, j, token | Spent(s, i, token) && Spent(s, j, token) :: i == j)
  }

  ghost predicate RunsConfirmed(cfg: Config, s: State) {
    (forall id | id in s.inflight && s.inflight[id].Consumed? :: s.inflight[id].request.token.Some?) &&
    (forall i: nat | i < |s.runs| && RequiresConfirmed(s.runs[i].request.glyph) :: Confirmed(cfg, s, s.runs[i]))
  }

  ghost predicate PhaseScoped(cfg: Config, s: State, p: Phase) {
    match p
    case Swept(name, _, caller, _, _) => name in s.glyphs && GatePassed(s.glyphs[name].Scopes(), caller)
    case Looked(r, _, _, _) => RequestAdmitted(cfg, s, r)
    case Consumed(r, _, _, _) => RequestAdmitted(cfg, s, r)
    case Running(r, _, _, _) => RequestAdmitted(cfg, s, r)
  }

  ghost predicate IssueScoped(s: State, i: Issue) {
    i.name in s.glyphs && GatePassed(s.glyphs[i.name].Scopes(), i.caller)
  }

  ghost predicate ScopesChecked(cfg: Config, s: State) {
    (forall id | id in s.inflight :: PhaseScoped(cfg, s, s.inflight[id])) &&
    (forall i: nat | i < |s.runs| :: RequestAdmitted(cfg, s, s.runs[i].request)) &&
    (forall token | token in s.issued :: IssueScoped(s, s.issued[token]))
  }

  ghost predicate ConfirmationInvariant(cfg: Config, s: State) {
    GlyphsSigned(cfg, s) && ScopesChecked(cfg, s) && TicketInvariant(cfg, s)
  }

  /** A step that leaves the glyphs alone and moves requests on. */
  ghost predicate MovesOn(cfg: Config, s: State, s': State) {
    s'.glyphs == s.glyphs &&
    (forall id | id in s'.inflight :: (id in s.inflight && s'.inflight[id] == s.inflight[id]) || PhaseScoped(cfg, s, s'.inflight[id])) &&
    (s'.runs == s.runs || exists x: HandlerRun :: s'.runs == s.runs + [x] && RequestAdmitted(cfg, s, x.request)) &&
    (forall token | token in s'.issued :: (token in s.issued && s'.issued[token] == s.issued[token]) || IssueScoped(s, s'.issued[token]))
  }

  lemma MovingOnKeepsScopes(cfg: Config, s: State, s': State)
    requires GlyphsSigned(cfg, s) && ScopesChecked(cfg, s) && MovesOn(cfg, s, s')
    ensures GlyphsSigned(cfg, s') && ScopesChecked(cfg, s')
  {
    forall id | id in s'.inflight ensures PhaseScoped(cfg, s', s'.inflight[id]) {
      assert PhaseScoped(cfg, s, s'.inflight[id]);
    }
    forall token | token in s'.issued ensures IssueScoped(s', s'.issued[token]) {
      assert IssueScoped(s, s'.issued[token]);
    }
  }

  lemma BeginMovesOn(cfg: Config, s: State, id: nat, r: Request, startedAt: int, seen: nat)
    requires ScopesChecked(cfg, s) && RequestAdmitted(cfg, s, r)
    ensures MovesOn(cfg, s, Begin(s, id, r, startedAt, seen))
  {
    var x := HandlerRun(r, s.clock, startedAt, seen);
    assert Begin(s, id, r, startedAt, seen).runs == s.runs + [x];
  }

  lemma RegisterKeepsScopes(cfg: Config, s: State, g: Glyph)
    requires GlyphsSigned(cfg, s) && ScopesChecked(cfg, s) && g.card.name !in s.glyphs
    ensures var s' := s.(glyphs := s.glyphs[g.card.name := SignCard(cfg, g)]);
      GlyphsSigned(cfg, s') && ScopesChecked(cfg, s')
  {
    var s' := s.(glyphs := s.glyphs[g.card.name := SignCard(cfg, g)]);
    forall id | id in s'.inflight ensures PhaseScoped(cfg, s', s'.inflight[id]) {
      assert PhaseScoped(cfg, s, s.inflight[id]);
    }
    forall token | token in s'.issued ensures IssueScoped(s', s'.issued[token]) {
      assert IssueScoped(s, s.issued[token]);
    }
  }

  lemma SweepMovesOn(cfg: Config, s: State, id: nat, name: Text, input: Value, caller: Option<seq<Text>>)
    requires ScopesChecked(cfg, s)
    ensures MovesOn(cfg, s, DoPrepareSweep(cfg, s, id, name, input, caller))
  {
    if name in s.glyphs {
      ScopeGate(s.glyphs[name].Scopes(), caller);
    }
  }

  lemma PutMovesOn(cfg: Config, s: State, id: nat, uuid: Text)
    requires ScopesChecked(cfg, s)
    ensures MovesOn(cfg, s, DoPreparePut(cfg, s, id, uuid))
  {
    assert id in s.inflight ==> PhaseScoped(cfg, s, s.inflight[id]);
  }

  lemma LookupMovesOn(cfg: Config, s: State, id: nat, name: Text, input: Value, caller: Option<seq<Text>>,
                      callId: Option<Text>, token: Option<Text>)
    requires GlyphsSigned(cfg, s) && ScopesChecked(cfg, s)
    ensures MovesOn(cfg, s, DoCallLookup(cfg, s, id, name, input, caller, callId, token))
  {
    if name in s.glyphs {
      ScopeGate(s.glyphs[name].Scopes(), caller);
      assert Registered(cfg, s, s.glyphs[name]);
    }
  }

  lemma FinishMovesOn(cfg: Config, s: State, id: nat, result: Option<Output>)
    requires ScopesChecked(cfg, s)
    ensures MovesOn(cfg, s, DoCallFinish(cfg, s, id, result))
  {
  }

  lemma AtKeepsScopes(cfg: Config, s: State, now: int)
    requires GlyphsSigned(cfg, s) && ScopesChecked(cfg, s)
    ensures GlyphsSigned(cfg, At(s, now)) && ScopesChecked(cfg, At(s, now))
  {
    MovingOnKeepsScopes(cfg, s, At(s, now));
  }

  lemma NextAt(cfg: Config, s: State, step: Step)
    requires !step.Register? && !step.PreparePut?
    ensures Next(cfg, At(s, StepTime(step)), step) == Next(cfg, s, step)
  {
  }

  lemma NextKeepsScopes(cfg: Config, s: State, step: Step)
    requires GlyphsSigned(cfg, s) && ScopesChecked(cfg, s)
    ensures GlyphsSigned(cfg, Next(cfg, s, step)) && ScopesChecked(cfg, Next(cfg, s, step))
  {
    match step
    case Register(g) =>
      if g.card.name !in s.glyphs { RegisterKeepsScopes(cfg, s, g); }
    case PreparePut(id, uuid) =>
      PutMovesOn(cfg, s, id, uuid);
      MovingOnKeepsScopes(cfg, s, Next(cfg, s, step));
    case _ =>
      AtKeepsScopes(cfg, s, StepTime(step));
      NextAt(cfg, s, step);
      TimedStepKeepsScopes(cfg, At(s, StepTime(step)), step);
  }

  function StepTime(step: Step): int
    requires !step.Register? && !step.PreparePut?
  {
    step.now
  }

  lemma TimedStepKeepsScopes(cfg: Config, s: State, step: Step)
    requires GlyphsSigned(cfg, s) && ScopesChecked(cfg, s)
    requires !step.Register? && !step.PreparePut? && StepTime(step) == s.clock
    ensures GlyphsSigned(cfg, Next(cfg, s, step)) && ScopesChecked(cfg, Next(cfg, s, step))
  {
    TimedStepMovesOn(cfg, s, step);
    MovingOnKeepsScopes(cfg, s, Next(cfg, s, step));
  }

  lemma TimedStepMovesOn(cfg: Config, s: State, step: Step)
    requires GlyphsSigned(cfg, s) && ScopesChecked(cfg, s)
    requires !step.Register? && !step.PreparePut? && StepTime(step) == s.clock
    ensures MovesOn(cfg, s, Next(cfg, s, step))
  {
    assert At(s, StepTime(step)) == s;
    match step
    case PrepareSweep(id, name, input, caller, _) => SweepMovesOn(cfg, s, id, name, input, caller);
    case CallLookup(id, name, input, caller, callId, token, _) => LookupMovesOn(cfg, s, id, name, input, caller, callId, token);
    case CallConfirm(id, _) => ConfirmMovesOn(cfg, s, id);
    case CallCheck(id, _) => CheckMovesOn(cfg, s, id);
    case CallFinish(id, result, _) => FinishMovesOn(cfg, s, id, result);
  }

  lemma ConfirmMovesOn(cfg: Config, s: State, id: nat)
    requires ScopesChecked(cfg, s)
    ensures MovesOn(cfg, s, DoCallConfirm(cfg, s, id))
  {
    if id in s.inflight && s.inflight[id].Looked? {
      var Looked(r, startedAt, seen, _) := s.inflight[id];
      assert PhaseScoped(cfg, s, s.inflight[id]);
      BeginMovesOn(cfg, s, id, r, startedAt, seen);
    }
  }

  lemma CheckMovesOn(cfg: Config, s: State, id: nat)
    requires ScopesChecked(cfg, s)
    ensures MovesOn(cfg, s, DoCallCheck(cfg, s, id))
  {
    if id in s.inflight && s.inflight[id].Consumed? {
      var Consumed(r, startedAt, seen, _) := s.inflight[id];
      assert PhaseScoped(cfg, s, s.inflight[id]);
      BeginMovesOn(cfg, s, id, r, startedAt, seen);
    }
  }

  // ----- Each step keeps the ticket invariants -----

  lemma ExpiryKeepsTickets(cfg: Config, s: State, s': State)
    requires TicketsSound(cfg, s) && UsedOnce(s) && RunsConfirmed(cfg, s)
    requires s'.tickets == Unexpired(s.tickets, s.clock) && s'.issued == s.issued && s'.runs == s.runs
    requires forall id | id in s'.inflight && s'.inflight[id].Consumed? :: id in s.inflight && s.inflight[id] == s'.inflight[id]
    ensures TicketsSound(cfg, s') && UsedOnce(s') && RunsConfirmed(cfg, s')
  {
    UnexpiredIs(s.tickets, s.clock);
    forall token | Get(s.tickets, token).None? ensures Get(s'.tickets, token).None? {
      GetIs(s.tickets, token);
      GetIs(s'.tickets, token);
    }
    assert forall i, token :: Held(s', i, token) ==> Held(s, i, token);
    assert forall i, token :: Spent(s', i, token) ==> Spent(s, i, token);
  }

  lemma SweepKeepsTickets(cfg: Config, s: State, id: nat, name: Text, input: Value, caller: Option<seq<Text>>)
    requires TicketsSound(cfg, s) && UsedOnce(s) && RunsConfirmed(cfg, s) && id !in s.inflight
    ensures var s' := DoPrepareSweep(cfg, s, id, name, input, caller);
      TicketsSound(cfg, s') && UsedOnce(s') && RunsConfirmed(cfg, s')
  {
    var s' := DoPrepareSweep(cfg, s, id, name, input, caller);
    if s' != s {
      ExpiryKeepsTickets(cfg, s, s');
    }
  }

  /** `s'` is `s` with a ticket issued under a new token. */
  ghost predicate Issues(cfg: Config, s: State, uuid: Text, i: Issue, s': State) {
    s'.tickets == Put(s.tickets, uuid, Ticket(cfg, i)) && s'.issued == s.issued[uuid := i] && s'.runs == s.runs &&
    forall id, token :: Held(s', id, token) ==> Held(s, id, token) && s'.inflight[id] == s.inflight[id]
  }

  lemma IssuingKeepsUsedOnce(cfg: Config, s: State, uuid: Text, i: Issue, s': State)
    requires UsedOnce(s) && Issues(cfg, s, uuid, i, s')
    ensures UsedOnce(s')
  {
    assert forall j, token :: Spent(s', j, token) ==> Spent(s, j, token);
  }

  lemma IssuingKeepsTickets(cfg: Config, s: State, uuid: Text, i: Issue, s': State)
    requires TicketsSound(cfg, s) && RunsConfirmed(cfg, s) && uuid !in s.issued && Issues(cfg, s, uuid, i, s')
    ensures TicketsSound(cfg, s')
  {
    PutIs(s.tickets, uuid, Ticket(cfg, i));
    forall token | token in s.issued && Get(s.tickets, token).None? ensures Get(s'.tickets, token).None? {
      GetIs(s.tickets, token);
      GetIs(s'.tickets, token);
    }
    forall j: nat, token | Spent(s', j, token) ensures token in s.issued && Get(s'.tickets, token).None? {
      assert Spent(s, j, token);
      assert Confirmed(cfg, s, s.runs[j]);
    }
  }

  lemma PutKeepsTickets(cfg: Config, s: State, id: nat, uuid: Text)
    requires TicketsSound(cfg, s) && UsedOnce(s) && RunsConfirmed(cfg, s) && uuid !in s.issued
    ensures var s' := DoPreparePut(cfg, s, id, uuid);
      TicketsSound(cfg, s') && UsedOnce(s') && RunsConfirmed(cfg, s')
  {
    var s' := DoPreparePut(cfg, s, id, uuid);
    if s'.issued != s.issued {
      IssuingKeepsUsedOnce(cfg, s, uuid, s'.issued[uuid], s');
      IssuingKeepsTickets(cfg, s, uuid, s'.issued[uuid], s');
      forall i: nat | i < |s'.runs| && RequiresConfirmed(s'.runs[i].request.glyph) ensures Confirmed(cfg, s', s'.runs[i]) {
        assert Confirmed(cfg, s, s.runs[i]);
      }
    } else {
      QuietKeepsTickets(cfg, s, s');
    }
  }

  /** A step that touches no ticket, starts no confirmed run, and consumes nothing. */
  ghost predicate Quiet(s: State, s': State) {
    s'.tickets == s.tickets && s'.issued == s.issued &&
    (forall id | id in s'.inflight && s'.inflight[id].Consumed? :: id in s.inflight && s.inflight[id] == s'.inflight[id]) &&
    (s'.runs == s.runs || exists x: HandlerRun :: s'.runs == s.runs + [x] && !RequiresConfirmed(x.request.glyph))
  }

  lemma QuietKeepsTickets(cfg: Config, s: State, s': State)
    requires TicketsSound(cfg, s) && UsedOnce(s) && RunsConfirmed(cfg, s) && Quiet(s, s')
    ensures TicketsSound(cfg, s') && UsedOnce(s') && RunsConfirmed(cfg, s')
  {
    assert forall i, token :: Held(s', i, token) ==> Held(s, i, token);
    assert forall i, token :: Spent(s', i, token) ==> Spent(s, i, token);
    forall i: nat | i < |s'.runs| && RequiresConfirmed(s'.runs[i].request.glyph) ensures Confirmed(cfg, s', s'.runs[i]) {
      assert s'.runs[i] == s.runs[i];
      assert Confirmed(cfg, s, s.runs[i]);
    }
  }

  lemma ConsumeKeepsTickets(cfg: Config, s: State, id: nat, t: Text, s': State)
    requires TicketsSound(cfg, s) && UsedOnce(s) && RunsConfirmed(cfg, s)
    requires id in s.inflight && s.inflight[id].Looked? && s.inflight[id].request.token == Some(t)
    requires Get(s.tickets, t).Some?
    requires var Looked(r, startedAt, seen, _) := s.inflight[id];
      s' == Enter(s.(tickets := Delete(s.tickets, t)), id, Consumed(r, startedAt, seen, Get(s.tickets, t).value))
    ensures TicketsSound(cfg, s') && UsedOnce(s') && RunsConfirmed(cfg, s')
  {
    DeleteIs(s.tickets, t);
    GetIs(s.tickets, t);
    assert Item(t, Get(s.tickets, t).value) in s.tickets;
    forall token ensures Get(s'.tickets, token) == if token == t then None else Get(s.tickets, token) {
      GetIs(s.tickets, token);
      GetIs(s'.tickets, token);
    }
    assert forall i, token :: Held(s', i, token) ==> (i == id && token == t) || (i != id && Held(s, i, token));
    assert forall i, token :: Spent(s', i, token) ==> Spent(s, i, token);
    forall i: nat | i < |s'.runs| && RequiresConfirmed(s'.runs[i].request.glyph) ensures Confirmed(cfg, s', s'.runs[i]) {
      assert Confirmed(cfg, s, s.runs[i]);
    }
  }

  lemma UnconfirmedIsQuiet(cfg: Config, s: State, id: nat)
    requires var s' := DoCallConfirm(cfg, s, id); id in s'.inflight && s'.inflight[id].Consumed? ==> s'.inflight == s.inflight
    ensures Quiet(s, DoCallConfirm(cfg, s, id))
  {
    var s' := DoCallConfirm(cfg, s, id);
    if s'.runs != s.runs {
      var Looked(r, startedAt, seen, _) := s.inflight[id];
      assert s'.runs == s.runs + [HandlerRun(r, s.clock, startedAt, seen)];
    }
  }

  lemma ConfirmKeepsTickets(cfg: Config, s: State, id: nat)
    requires TicketsSound(cfg, s) && UsedOnce(s) && RunsConfirmed(cfg, s)
    ensures var s' := DoCallConfirm(cfg, s, id);
      TicketsSound(cfg, s') && UsedOnce(s') && RunsConfirmed(cfg, s')
  {
    var s' := DoCallConfirm(cfg, s, id);
    if id in s'.inflight && s'.inflight[id].Consumed? && s.inflight[id].Looked? {
      ConsumeKeepsTickets(cfg, s, id, s.inflight[id].request.token.value, s');
    } else {
      UnconfirmedIsQuiet(cfg, s, id);
      QuietKeepsTickets(cfg, s, s');
    }
  }

  /** The ticket a request holds is the one issued under its token; if the check passes, it confirms the run. */
  lemma BeginConfirms(cfg: Config, s: State, id: nat)
    requires TicketsSound(cfg, s) && RunsConfirmed(cfg, s) && id in s.inflight && s.inflight[id].Consumed?
    requires var Consumed(r, _, _, ticket) := s.inflight[id];
      s.clock < ticket.expiresAt && ticket.glyphName == r.glyph.card.name && ticket.inputHash == HashOf(cfg, r)
    ensures var Consumed(r, startedAt, seen, _) := s.inflight[id]; RunsConfirmed(cfg, Begin(s, id, r, startedAt, seen))
  {
    var Consumed(r, startedAt, seen, ticket) := s.inflight[id];
    var s' := Begin(s, id, r, startedAt, seen);
    assert Held(s, id, r.token.value);
    forall i: nat | i < |s'.runs| && RequiresConfirmed(s'.runs[i].request.glyph) ensures Confirmed(cfg, s', s'.runs[i]) {
      if i < |s.runs| { assert Confirmed(cfg, s, s.runs[i]); }
    }
  }

  lemma BeginSpends(cfg: Config, s: State, id: nat)
    requires TicketsSound(cfg, s) && UsedOnce(s) && RunsConfirmed(cfg, s) && id in s.inflight && s.inflight[id].Consumed?
    ensures var Consumed(r, startedAt, seen, _) := s.inflight[id];
      var s' := Begin(s, id, r, startedAt, seen); TicketsSound(cfg, s') && UsedOnce(s')
  {
    var Consumed(r, startedAt, seen, _) := s.inflight[id];
    var s' := Begin(s, id, r, startedAt, seen);
    assert Held(s, id, r.token.value);
    assert forall i, token :: Held(s', i, token) ==> i != id && Held(s, i, token);
    assert forall i, token :: Spent(s', i, token) ==> Spent(s, i, token) || (i == |s.runs| && token == r.token.value);
  }

  lemma CheckKeepsTickets(cfg: Config, s: State, id: nat)
    requires TicketsSound(cfg, s) && UsedOnce(s) && RunsConfirmed(cfg, s)
    ensures var s' := DoCallCheck(cfg, s, id);
      TicketsSound(cfg, s') && UsedOnce(s') && RunsConfirmed(cfg, s')
  {
    var s' := DoCallCheck(cfg, s, id);
    if s'.runs != s.runs {
      BeginConfirms(cfg, s, id);
      BeginSpends(cfg, s, id);
    } else {
      QuietKeepsTickets(cfg, s, s');
    }
  }

  ghost predicate TicketInvariant(cfg: Config, s: State) {
    TicketsSound(cfg, s) && UsedOnce(s) && RunsConfirmed(cfg, s)
  }

  lemma LookupIsQuiet(cfg: Config, s: State, id: nat, name: Text, input: Value, caller: Option<seq<Text>>,
                      callId: Option<Text>, token: Option<Text>)
    requires id !in s.inflight
    ensures Quiet(s, DoCallLookup(cfg, s, id, name, input, caller, callId, token))
  {
  }

  lemma FinishIsQuiet(cfg: Config, s: State, id: nat, result: Option<Output>)
    ensures Quiet(s, DoCallFinish(cfg, s, id, result))
  {
  }

  lemma TimedStepKeepsTickets(cfg: Config, s: State, step: Step)
    requires TicketInvariant(cfg, s) && Possible(s, step)
    requires !step.Register? && !step.PreparePut? && StepTime(step) == s.clock
    ensures TicketInvariant(cfg, Next(cfg, s, step))
  {
    match step
    case PrepareSweep(id, name, input, caller, _) => SweepKeepsTickets(cfg, s, id, name, input, caller);
    case CallConfirm(id, _) => ConfirmKeepsTickets(cfg, s, id);
    case CallCheck(id, _) => CheckKeepsTickets(cfg, s, id);
    case CallLookup(id, name, input, caller, callId, token, _) =>
      LookupIsQuiet(cfg, s, id, name, input, caller, callId, token);
      QuietKeepsTickets(cfg, s, Next(cfg, s, step));
    case CallFinish(id, result, _) =>
      FinishIsQuiet(cfg, s, id, result);
      QuietKeepsTickets(cfg, s, Next(cfg, s, step));
  }

  lemma NextKeepsTickets(cfg: Config, s: State, step: Step)
    requires TicketInvariant(cfg, s) && Possible(s, step)
    ensures TicketInvariant(cfg, Next(cfg, s, step))
  {
    match step
    case Register(_) => QuietKeepsTickets(cfg, s, Next(cfg, s, step));
    case PreparePut(id, uuid) => PutKeepsTickets(cfg, s, id, uuid);
    case _ =>
      QuietKeepsTickets(cfg, s, At(s, StepTime(step)));
      TimedStepKeepsTickets(cfg, At(s, StepTime(step)), step);
  }

  lemma NextKeepsConfirmations(cfg: Config, s: State, step: Step)
    requires ConfirmationInvariant(cfg, s) && Possible(s, step)
    ensures ConfirmationInvariant(cfg, Next(cfg, s, step))
  {
    NextKeepsScopes(cfg, s, step);
    NextKeepsTickets(cfg, s, step);
  }

  lemma {:induction false} RunKeepsConfirmations(cfg: Config, s: State, steps: seq<Step>)
    requires ConfirmationInvariant(cfg, s) && PossibleRun(cfg, s, steps)
    ensures ConfirmationInvariant(cfg, Run(cfg, s, steps))
    decreases |steps|
  {
    if steps != [] {
      NextKeepsConfirmations(cfg, s, steps[0]);
      RunKeepsConfirmations(cfg, Next(cfg, s, steps[0]), steps[1..]);
    }
  }

  /**
   Over all interleavings: the runs of handlers whose card asks for confirmation map injectively to
   issued tickets. Each ticket was issued for the same glyph and the same input, up to key order, it
   had not expired when the run began, and both callers held every scope the card requires.
   */
  lemma ConfirmedRunsMapToTickets(cfg: Config, clock: int, steps: seq<Step>, i: nat, j: nat)
    requires CollisionFree(cfg.suite) && PossibleRun(cfg, Start(clock), steps)
    requires var s := Run(cfg, Start(clock), steps);
      i < |s.runs| && j < |s.runs| &&
      AsksConfirmation(s.runs[i].request.glyph.card) && AsksConfirmation(s.runs[j].request.glyph.card)
    ensures var s := Run(cfg, Start(clock), steps);
      var x := s.runs[i];
      x.request.token.Some? && x.request.token.value in s.issued &&
      var ticket := s.issued[x.request.token.value];
      ticket.name == x.request.glyph.card.name && x.at < ticket.expiresAt &&
      (WellFormed(ticket.input) && WellFormed(x.request.input) ==> Forget(ticket.input) == Forget(x.request.input)) &&
      HoldsScopes(x.request.glyph.card, x.request.caller) && HoldsScopes(x.request.glyph.card, ticket.caller) &&
      (i != j ==> x.request.token != s.runs[j].request.token)
  {
    var s := Run(cfg, Start(clock), steps);
    RunKeepsConfirmations(cfg, Start(clock), steps);
    ConfirmationIsAsked(s.runs[i].request.glyph);
    ConfirmationIsAsked(s.runs[j].request.glyph);
    ConfirmedPair(cfg, s, i, j);
  }

  lemma ConfirmedPair(cfg: Config, s: State, i: nat, j: nat)
    requires CollisionFree(cfg.suite) && ConfirmationInvariant(cfg, s) && i < |s.runs| && j < |s.runs|
    requires RequiresConfirmed(s.runs[i].request.glyph) && RequiresConfirmed(s.runs[j].request.glyph)
    ensures var x := s.runs[i];
      x.request.token.Some? && x.request.token.value in s.issued &&
      var ticket := s.issued[x.request.token.value];
      ticket.name == x.request.glyph.card.name && x.at < ticket.expiresAt &&
      (WellFormed(ticket.input) && WellFormed(x.request.input) ==> Forget(ticket.input) == Forget(x.request.input)) &&
      HoldsScopes(x.request.glyph.card, x.request.caller) && HoldsScopes(x.request.glyph.card, ticket.caller) &&
      (i != j ==> x.request.token != s.runs[j].request.token)
  {
    var x := s.runs[i];
    assert Confirmed(cfg, s, x) && Confirmed(cfg, s, s.runs[j]);
    var ticket := s.issued[x.request.token.value];
    if WellFormed(ticket.input) && WellFormed(x.request.input) {
      CanonicalHashBinds(cfg.suite, ticket.input, x.request.input);
    }
    assert RequestAdmitted(cfg, s, x.request) && IssueScoped(s, ticket);
    ScopesAreHeld(x.request.glyph, x.request.caller);
    ScopesAreHeld(x.request.glyph, ticket.caller);
    assert Spent(s, i, x.request.token.value);
    assert x.request.token == s.runs[j].request.token ==> Spent(s, j, x.request.token.value);
  }

  /** No handler of any glyph ever ran for a caller without a scope that its card requires. */
  lemma EveryRunHeldScopes(cfg: Config, clock: int, steps: seq<Step>, i: nat)
    requires PossibleRun(cfg, Start(clock), steps) && i < |Run(cfg, Start(clock), steps).runs|
    ensures var r := Run(cfg, Start(clock), steps).runs[i].request; HoldsScopes(r.glyph.card, r.caller)
  {
    var s := Run(cfg, Start(clock), steps);
    RunKeepsConfirmations(cfg, Start(clock), steps);
    assert RequestAdmitted(cfg, s, s.runs[i].request);
    ScopesAreHeld(s.runs[i].request.glyph, s.runs[i].request.caller);
  }
}
