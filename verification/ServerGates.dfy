/** What one prepare request, one call and one finished handler do, when nothing else runs in between. */
module ServerGates {
  import opened Texts
  import opened Json
  import opened Canonical
  import opened Crypto
  import opened CardFields
  import opened Cards
  import opened Receipts
  import opened JsMaps
  import opened Stores
  import opened Server
  import opened ServerProofs

  /** The glyph is registered, and the caller holds every scope its card requires. */
  predicate Welcome(s: State, name: Text, caller: Option<seq<Text>>) {
    name in s.glyphs && HoldsScopes(s.glyphs[name].card, caller)
  }

  lemma WelcomeIs(s: State, name: Text, caller: Option<seq<Text>>)
    requires name in s.glyphs
    ensures Welcome(s, name, caller) <==> MissingScopes(s.glyphs[name].Scopes(), caller) == []
  {
    ScopeGate(s.glyphs[name].Scopes(), caller);
    ScopesAreHeld(s.glyphs[name], caller);
  }

  // ----- Registration -----

  /** The canonical record reads name and body only. */
  lemma {:induction false} SamePicked(a: Card, b: Card, fields: seq<Field>)
    requires a.name == b.name && a.body == b.body
    ensures PickedMembers(a, fields) == PickedMembers(b, fields)
  {
    if fields != [] {
      SamePicked(a, b, fields[1..]);
    }
  }

  /**
   A glyph whose card has its honest id is served with a card that verifies under the server's key and
   has the same content; a taken name keeps its glyph, and no other glyph changes.
   */
  lemma RegisteredCardVerifies(cfg: Config, s: State, g: Glyph)
    requires SignaturesVerify(cfg.suite) && Honest(cfg.suite, g.card)
    ensures var s', name := Next(cfg, s, Register(g)), g.card.name;
      name in s'.glyphs && s' == s.(glyphs := s'.glyphs) && s'.glyphs - {name} == s.glyphs - {name} &&
      (name in s.glyphs ==> s' == s) &&
      (name !in s.glyphs ==>
        var card := s'.glyphs[name].card;
        VerifyGlyph(cfg.suite, card) && card.publicKey == Some(cfg.suite.publicKeyOf(cfg.privateKey)) &&
        card.id == g.card.id && card.name == name && card.body == g.card.body)
  {
    SamePicked(g.card, SignCard(cfg, g).card, CANONICAL_FIELDS);
    SignedCardVerifies(cfg.suite, SignCard(cfg, g).card, cfg.privateKey);
  }

  // ----- Prepare -----

  /**
   A prepare request removes the expired tickets if it is welcome, and then issues one, for this glyph
   and input and for five minutes, exactly when fewer than the cap are left.
   */
  lemma PrepareExactly(cfg: Config, s: State, id: nat, name: Text, input: Value, caller: Option<seq<Text>>, now: int, uuid: Text)
    requires id !in s.inflight
    ensures var s' := Next(cfg, Next(cfg, s, PrepareSweep(id, name, input, caller, now)), PreparePut(id, uuid));
      var left := Unexpired(s.tickets, now);
      s' == if !Welcome(s, name, caller) then s.(clock := now)
        else if |left| >= cfg.maxPendingConfirmations then s.(clock := now, tickets := left)
        else s.(
          clock := now,
          tickets := Put(left, uuid, Pending(name, CanonicalHash(cfg.suite, input), now + 300_000)),
          issued := s.issued[uuid := Issue(name, input, caller, now + 300_000)])
  {
    if name in s.glyphs {
      WelcomeIs(s, name, caller);
      var left := Unexpired(s.tickets, now);
      assert s.inflight[id := Swept(name, input, caller, now, |left|)] - {id} == s.inflight;
    }
  }

  /**
   A refused prepare advertises the least number of whole seconds, and at least one, after which the
   earliest ticket has expired; without a ticket, five minutes.
   */
  lemma RetryAfterIsLeast(earliest: Option<int>, now: int)
    ensures RetryAfter(None, now) == 300
    ensures earliest.Some? ==>
      var seconds := RetryAfter(earliest, now);
      seconds >= 1 && now + 1000 * seconds >= earliest.value && (seconds > 1 ==> now + 1000 * (seconds - 1) < earliest.value)
  {
  }

  // ----- Call -----

  /** The key of a response, if the server keeps responses and the call has an id. */
  function ReplayKey(cfg: Config, name: Text, callId: Option<Text>, input: Value): Option<Text> {
    if cfg.dedupeTtlMs.None? || callId.None? || callId.value == [] then None
    else Some(name + Ascii(":") + callId.value + Ascii(":") + CanonicalHash(cfg.suite, input))
  }

  /** The unexpired response under that key. */
  function Replayable(cfg: Config, s: State, name: Text, callId: Option<Text>, input: Value, now: int): Option<Envelope> {
    match ReplayKey(cfg, name, callId, input)
    case None => None
    case Some(key) =>
      match Get(s.responses, key)
      case None => None
      case Some(r) => if now < r.expiresAt then Some(r.response) else None
  }

  /** The token is that of a waiting ticket for this glyph and input that has not expired. */
  predicate ValidTicket(cfg: Config, s: State, token: Option<Text>, name: Text, input: Value, now: int) {
    token.Some? && token.value != [] &&
    match Get(s.tickets, token.value)
    case None => false
    case Some(p) => now < p.expiresAt && p.glyphName == name && p.inputHash == CanonicalHash(cfg.suite, input)
  }

  lemma LookupExactly(cfg: Config, s: State, id: nat, name: Text, input: Value, caller: Option<seq<Text>>,
                      callId: Option<Text>, token: Option<Text>)
    requires name in s.glyphs ==> s.glyphs[name].card.name == name
    ensures var s' := DoCallLookup(cfg, s, id, name, input, caller, callId, token);
      if Welcome(s, name, caller) then
        s' == s.(responses := s'.responses, inflight := s.inflight[id := Looked(
          Request(s.glyphs[name], input, caller, callId, token), s.clock, |s.records|,
          Replayable(cfg, s, name, callId, input, s.clock))])
      else s' == s
  {
    if name in s.glyphs {
      WelcomeIs(s, name, caller);
      assert Ascii(":") == [SEPARATOR];
    }
  }

  /** What becomes of a call that was looked up: it is answered, refused or run. */
  lemma ConfirmedExactly(cfg: Config, s: State, id: nat)
    requires id in s.inflight && s.inflight[id].Looked?
    ensures var Looked(r, startedAt, seen, cached) := s.inflight[id];
      var s' := DoCallCheck(cfg, DoCallConfirm(cfg, s, id), id);
      var begins := cached.None? && (AsksConfirmation(r.glyph.card) ==> ValidTicket(cfg, s, r.token, r.glyph.card.name, r.input, s.clock));
      s' == s.(
        runs := if begins then s.runs + [HandlerRun(r, s.clock, startedAt, seen)] else s.runs,
        answers := if cached.Some? then s.answers + [Answer(r, startedAt, cached.value, true)] else s.answers,
        tickets :=
          if cached.None? && AsksConfirmation(r.glyph.card) && Truthy(r.token) then Delete(s.tickets, r.token.value) else s.tickets,
        inflight := if begins then s.inflight[id := Running(r, startedAt, seen, |s.runs|)] else s.inflight - {id})
  {
    var Looked(r, startedAt, seen, cached) := s.inflight[id];
    ConfirmationIsAsked(r.glyph);
    if Truthy(r.token) {
      DeleteAbsent(s.tickets, r.token.value);
      if Get(s.tickets, r.token.value).Some? {
        ConsumedExactly(cfg, s, id, Get(s.tickets, r.token.value).value);
      }
    }
  }

  lemma ConsumedExactly(cfg: Config, s: State, id: nat, p: Pending)
    requires id in s.inflight && s.inflight[id].Looked?
    requires Truthy(s.inflight[id].request.token) && Get(s.tickets, s.inflight[id].request.token.value) == Some(p)
    ensures var Looked(r, startedAt, seen, _) := s.inflight[id];
      var left := s.(tickets := Delete(s.tickets, r.token.value));
      DoCallCheck(cfg, Enter(left, id, Consumed(r, startedAt, seen, p)), id) ==
        if ValidTicket(cfg, s, r.token, r.glyph.card.name, r.input, s.clock)
        then left.(runs := s.runs + [HandlerRun(r, s.clock, startedAt, seen)],
                   inflight := s.inflight[id := Running(r, startedAt, seen, |s.runs|)])
        else left.(inflight := s.inflight - {id})
  {
    var Looked(r, startedAt, seen, _) := s.inflight[id];
    var c := Consumed(r, startedAt, seen, p);
    assert s.inflight[id := c] - {id} == s.inflight - {id};
    assert s.inflight[id := c][id := Running(r, startedAt, seen, |s.runs|)] == s.inflight[id := Running(r, startedAt, seen, |s.runs|)];
  }

  predicate Begins(cfg: Config, s: State, name: Text, input: Value, caller: Option<seq<Text>>, callId: Option<Text>,
                   token: Option<Text>, now: int) {
    Welcome(s, name, caller) && Replayable(cfg, s, name, callId, input, now).None? &&
    (AsksConfirmation(s.glyphs[name].card) ==> ValidTicket(cfg, s, token, name, input, now))
  }

  /** The state after a call's three stretches up to its handler. */
  function Called(cfg: Config, s: State, id: nat, name: Text, input: Value, caller: Option<seq<Text>>, callId: Option<Text>,
                  token: Option<Text>, now: int): State {
    Next(cfg, Next(cfg, Next(cfg, s, CallLookup(id, name, input, caller, callId, token, now)), CallConfirm(id, now)), CallCheck(id, now))
  }

  lemma StretchesKeepTime(cfg: Config, s: State, id: nat)
    ensures DoCallConfirm(cfg, s, id).clock == s.clock && DoCallCheck(cfg, s, id).clock == s.clock
  {
  }

  /** The two later stretches at the same time see the state that the lookup leaves. */
  lemma CalledFromLookup(cfg: Config, s: State, id: nat, name: Text, input: Value, caller: Option<seq<Text>>, callId: Option<Text>,
                         token: Option<Text>, now: int, looked: State)
    requires looked == DoCallLookup(cfg, At(s, now), id, name, input, caller, callId, token) && looked.clock == now
    ensures Called(cfg, s, id, name, input, caller, callId, token, now) == DoCallCheck(cfg, DoCallConfirm(cfg, looked, id), id)
  {
    assert At(looked, now) == looked;
    StretchesKeepTime(cfg, looked, id);
    var confirmed := DoCallConfirm(cfg, looked, id);
    assert At(confirmed, now) == confirmed;
  }

  /** A call that is not welcome leaves nothing but the time. */
  lemma UnwelcomeCall(cfg: Config, s: State, id: nat, name: Text, input: Value, caller: Option<seq<Text>>, callId: Option<Text>,
                      token: Option<Text>, now: int)
    requires id !in s.inflight && GlyphsSigned(cfg, s) && !Welcome(s, name, caller)
    ensures Called(cfg, s, id, name, input, caller, callId, token, now) == At(s, now)
  {
    LookupExactly(cfg, At(s, now), id, name, input, caller, callId, token);
    CalledFromLookup(cfg, s, id, name, input, caller, callId, token, now, At(s, now));
  }

  /** What a call that was looked up makes of the state before the lookup. */
  function Served(cfg: Config, s: State, id: nat, r: Request, replay: Option<Envelope>, begins: bool): State {
    s.(
      runs := if begins then s.runs + [HandlerRun(r, s.clock, s.clock, |s.records|)] else s.runs,
      answers := if replay.Some? then s.answers + [Answer(r, s.clock, replay.value, true)] else s.answers,
      tickets := if replay.None? && AsksConfirmation(r.glyph.card) && Truthy(r.token) then Delete(s.tickets, r.token.value) else s.tickets,
      inflight := if begins then s.inflight[id := Running(r, s.clock, |s.records|, |s.runs|)] else s.inflight)
  }

  lemma ServedAfterLookup(cfg: Config, s: State, id: nat, r: Request, replay: Option<Envelope>, looked: State)
    requires id !in s.inflight
    requires looked == s.(inflight := s.inflight[id := Looked(r, s.clock, |s.records|, replay)])
    ensures DoCallCheck(cfg, DoCallConfirm(cfg, looked, id), id) == Served(cfg, s, id, r, replay,
      replay.None? && (AsksConfirmation(r.glyph.card) ==> ValidTicket(cfg, s, r.token, r.glyph.card.name, r.input, s.clock)))
  {
    ConfirmedExactly(cfg, looked, id);
    assert looked.inflight - {id} == s.inflight;
    var running := Running(r, s.clock, |s.records|, |s.runs|);
    assert looked.inflight[id := running] == s.inflight[id := running];
  }

  /**
   A welcome call runs its handler exactly when no response is there to replay, and it has a valid
   ticket if the card asks for confirmation. It is answered at once exactly when a response is there.
   Its ticket is used up in either outcome of the check.
   */
  lemma WelcomeCall(cfg: Config, s: State, id: nat, name: Text, input: Value, caller: Option<seq<Text>>, callId: Option<Text>,
                    token: Option<Text>, now: int)
    requires id !in s.inflight && GlyphsSigned(cfg, s) && Welcome(s, name, caller)
    ensures var s', r := Called(cfg, s, id, name, input, caller, callId, token, now), Request(s.glyphs[name], input, caller, callId, token);
      s' == Served(cfg, s.(clock := now, responses := s'.responses), id, r, Replayable(cfg, s, name, callId, input, now),
        Begins(cfg, s, name, input, caller, callId, token, now))
  {
    var r, replay := Request(s.glyphs[name], input, caller, callId, token), Replayable(cfg, s, name, callId, input, now);
    var looked := DoCallLookup(cfg, At(s, now), id, name, input, caller, callId, token);
    LookupExactly(cfg, At(s, now), id, name, input, caller, callId, token);
    CalledFromLookup(cfg, s, id, name, input, caller, callId, token, now, looked);
    var before := s.(clock := now, responses := looked.responses);
    assert looked == before.(inflight := before.inflight[id := Looked(r, now, |s.records|, replay)]);
    ServedAfterLookup(cfg, before, id, r, replay, looked);
  }

  /**
   A prepared call: with the token just issued, for the same input up to the order of keys, the handler
   runs exactly when the call comes before five minutes have passed.
   */
  lemma PreparedCallRuns(cfg: Config, s: State, id: nat, name: Text, input: Value, caller: Option<seq<Text>>, now: int, uuid: Text,
                         callId: Option<Text>, again: Value, later: int)
    requires CollisionFree(cfg.suite) && WellFormed(input) && WellFormed(again) && Forget(input) == Forget(again)
    requires id !in s.inflight && GlyphsSigned(cfg, s) && Distinct(s.tickets) && uuid != []
    requires Welcome(s, name, caller) && AsksConfirmation(s.glyphs[name].card)
    requires |Unexpired(s.tickets, now)| < cfg.maxPendingConfirmations
    requires Replayable(cfg, s, name, callId, again, later).None?
    ensures var s' := Next(cfg, Next(cfg, s, PrepareSweep(id, name, input, caller, now)), PreparePut(id, uuid));
      Begins(cfg, s', name, again, caller, callId, Some(uuid), later) <==> later < now + 300_000
  {
    PrepareExactly(cfg, s, id, name, input, caller, now, uuid);
    var s' := Next(cfg, Next(cfg, s, PrepareSweep(id, name, input, caller, now)), PreparePut(id, uuid));
    UnexpiredIs(s.tickets, now);
    TicketIsValid(cfg, s', Unexpired(s.tickets, now), name, input, now, uuid, again, later);
  }

  lemma TicketIsValid(cfg: Config, s: State, left: JsMap<Text, Pending>, name: Text, input: Value, now: int, uuid: Text,
                      again: Value, later: int)
    requires CollisionFree(cfg.suite) && WellFormed(input) && WellFormed(again) && Forget(input) == Forget(again)
    requires Distinct(left) && uuid != []
    requires s.tickets == Put(left, uuid, Pending(name, CanonicalHash(cfg.suite, input), now + 300_000))
    ensures ValidTicket(cfg, s, Some(uuid), name, again, later) <==> later < now + 300_000
  {
    var p := Pending(name, CanonicalHash(cfg.suite, input), now + 300_000);
    PutIs(left, uuid, p);
    GetIs(Put(left, uuid, p), uuid);
    CanonicalHashBinds(cfg.suite, input, again);
  }

  // ----- After the handler -----

  function NamedInReceipt(c: Suite, x: Receipts.Execution, sk: Text, name: string): Option<Value> {
    Lookup(SignedReceipt(c, x, sk).rest, Ascii(name))
  }

  lemma FixedMember(c: Suite, x: Receipts.Execution, sk: Text, i: nat, k: ReceiptKey, v: Value, name: string)
    requires i < 10 && FixedFields(c, x, c.publicKeyOf(sk))[i] == (k, v) && ReceiptKeyText(k) == Ascii(name)
    ensures NamedInReceipt(c, x, sk, name) == Some(v)
  {
    FindFixed(c, x, c.publicKeyOf(sk), i);
    LookupNamed(ReceiptFields(c, x, c.publicKeyOf(sk)), FixedFields(c, x, c.publicKeyOf(sk))[i].0);
  }

  /** The members of a receipt, each under its own name. */
  lemma ReceiptIds(c: Suite, x: Receipts.Execution, sk: Text)
    ensures NamedInReceipt(c, x, sk, "callId") == Some(Leaf(Str(x.callId)))
    ensures NamedInReceipt(c, x, sk, "glyphId") == Some(Leaf(Str(x.card.id)))
  {
    FixedMember(c, x, sk, 1, CallId, Leaf(Str(x.callId)), "callId");
    FixedMember(c, x, sk, 2, GlyphIdKey, Leaf(Str(x.card.id)), "glyphId");
  }

  lemma ReceiptSource(c: Suite, x: Receipts.Execution, sk: Text)
    ensures NamedInReceipt(c, x, sk, "glyphName") == Some(Leaf(Str(x.card.name)))
    ensures NamedInReceipt(c, x, sk, "serverPublicKey") == Some(Leaf(Str(c.publicKeyOf(sk))))
  {
    FixedMember(c, x, sk, 3, GlyphName, Leaf(Str(x.card.name)), "glyphName");
    FixedMember(c, x, sk, 9, ServerPublicKey, Leaf(Str(c.publicKeyOf(sk))), "serverPublicKey");
  }

  lemma ReceiptHashes(c: Suite, x: Receipts.Execution, sk: Text)
    ensures NamedInReceipt(c, x, sk, "inputHash") == Some(Leaf(Str(CanonicalHash(c, x.input))))
    ensures NamedInReceipt(c, x, sk, "outputHash") == Some(Leaf(Str(CanonicalHash(c, x.output))))
  {
    FixedMember(c, x, sk, 4, InputHash, Leaf(Str(CanonicalHash(c, x.input))), "inputHash");
    FixedMember(c, x, sk, 5, OutputHash, Leaf(Str(CanonicalHash(c, x.output))), "outputHash");
  }

  lemma ReceiptInspection(c: Suite, x: Receipts.Execution, sk: Text)
    ensures NamedInReceipt(c, x, sk, "inspectionHash") == Some(Leaf(Str(CanonicalHash(c, x.inspection))))
    ensures NamedInReceipt(c, x, sk, "receiptVersion") == Some(Leaf(Str(Ascii("0.3"))))
  {
    FixedMember(c, x, sk, 6, InspectionHash, Leaf(Str(CanonicalHash(c, x.inspection))), "inspectionHash");
    FixedMember(c, x, sk, 0, ReceiptVersion, Leaf(Str(Ascii("0.3"))), "receiptVersion");
  }

  lemma ReceiptTimes(c: Suite, x: Receipts.Execution, sk: Text)
    ensures NamedInReceipt(c, x, sk, "latencyMs") == Some(Leaf(Num(x.latencyMs)))
    ensures NamedInReceipt(c, x, sk, "timestamp") == Some(Leaf(Str(x.timestamp)))
  {
    FixedMember(c, x, sk, 7, LatencyMs, Leaf(Num(x.latencyMs)), "latencyMs");
    FixedMember(c, x, sk, 8, Timestamp, Leaf(Str(x.timestamp)), "timestamp");
  }

  lemma NotFixed(c: Suite, x: Receipts.Execution, publicKey: Text, k: ReceiptKey)
    requires k == RiskTierKey || k == ProviderKey || k == ClientCallId
    ensures Find(ReceiptFields(c, x, publicKey), k) == Find(OptionalFields(x), k)
  {
    var fixed := FixedFields(c, x, publicKey);
    FindNone(fixed, k);
    FindConcat(fixed, OptionalFields(x), k);
  }

  lemma OptionalMember(c: Suite, x: Receipts.Execution, sk: Text, k: ReceiptKey, name: string)
    requires (k == RiskTierKey || k == ProviderKey || k == ClientCallId) && ReceiptKeyText(k) == Ascii(name)
    ensures NamedInReceipt(c, x, sk, name) == Find(OptionalFields(x), k)
  {
    NotFixed(c, x, c.publicKeyOf(sk), k);
    LookupNamed(ReceiptFields(c, x, c.publicKeyOf(sk)), k);
  }

  lemma FindsOptional(x: Receipts.Execution, k: ReceiptKey)
    ensures Find(OptionalFields(x), k) ==
      if k == RiskTierKey then CostValue(x.card, RiskTier)
      else if k == ProviderKey then FieldValue(x.card, Provider)
      else if k == ClientCallId && Truthy(x.clientCallId) then TextValue(x.clientCallId) else None
  {
    var tier, provider := CostValue(x.card, RiskTier), FieldValue(x.card, Provider);
    var id := if Truthy(x.clientCallId) then TextValue(x.clientCallId) else None;
    FindConcat(Optional(RiskTierKey, tier) + Optional(ProviderKey, provider), Optional(ClientCallId, id), k);
    FindConcat(Optional(RiskTierKey, tier), Optional(ProviderKey, provider), k);
    FindOptional(RiskTierKey, tier, k);
    FindOptional(ProviderKey, provider, k);
    FindOptional(ClientCallId, id, k);
  }

  /** The members that a receipt may lack. */
  lemma ReceiptRiskTier(c: Suite, x: Receipts.Execution, sk: Text)
    ensures NamedInReceipt(c, x, sk, "riskTier") == CostNamed(x.card, "riskTier")
  {
    CostNames(x.card);
    OptionalMember(c, x, sk, RiskTierKey, "riskTier");
    FindsOptional(x, RiskTierKey);
  }

  lemma ReceiptProvider(c: Suite, x: Receipts.Execution, sk: Text)
    ensures NamedInReceipt(c, x, sk, "provider") == FieldNamed(x.card, "provider")
  {
    RecordNames(x.card);
    ReceiptProviderField(c, x, sk);
  }

  lemma ReceiptProviderField(c: Suite, x: Receipts.Execution, sk: Text)
    ensures NamedInReceipt(c, x, sk, "provider") == FieldValue(x.card, Provider)
  {
    OptionalMember(c, x, sk, ProviderKey, "provider");
    FindsOptional(x, ProviderKey);
  }

  lemma ReceiptClientCallId(c: Suite, x: Receipts.Execution, sk: Text)
    ensures NamedInReceipt(c, x, sk, "clientCallId") == if Truthy(x.clientCallId) then Some(Leaf(Str(x.clientCallId.value))) else None
  {
    OptionalMember(c, x, sk, ClientCallId, "clientCallId");
    FindsOptional(x, ClientCallId);
  }

  /** The execution that a request and its handler's output make. */
  function ExecutionOf(r: Request, o: Output): Receipts.Execution {
    Receipts.Execution(r.glyph.card, o.callId, r.callId, r.input, o.output, Obj(o.report), o.latencyMs, o.timestamp)
  }

  lemma MadeIs(r: Request, o: Output)
    ensures Made(r, o) == ExecutionOf(r, o)
  {
  }

  /**
   A finished handler answers with its sealed output, which is recorded for the time-to-live if the
   call has a key; a failed one leaves no trace.
   */
  lemma FinishExactly(cfg: Config, s: State, id: nat, result: Option<Output>, now: int)
    requires id in s.inflight && s.inflight[id].Running?
    ensures var Running(r, startedAt, _, run) := s.inflight[id];
      var s', key := Next(cfg, s, CallFinish(id, result, now)), ReplayKey(cfg, r.glyph.card.name, r.callId, r.input);
      result.Some? ==>
        var x := ExecutionOf(r, result.value);
        var envelope := Seal(cfg.suite, x, cfg.privateKey);
        envelope.payload == Some(result.value.output) && envelope.inspection == Some(Obj(result.value.report)) &&
        envelope.glyphId == r.glyph.card.id && envelope.callId == result.value.callId &&
        s' == s.(
          clock := now,
          inflight := s.inflight - {id},
          answers := s.answers + [Answer(r, startedAt, envelope, false)],
          records := if key.None? then s.records else s.records + [Record(r, x, now, run)],
          responses := if key.None? then s.responses else Remember(s.responses, key.value, envelope, cfg.dedupeTtlMs.value, now))
    ensures result.None? ==> Next(cfg, s, CallFinish(id, result, now)) == s.(clock := now, inflight := s.inflight - {id})
  {
    assert Ascii(":") == [SEPARATOR];
  }
}
