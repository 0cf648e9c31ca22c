/**
 The server's prepare and call handlers as a state machine. A handler is cut at every `await` on a
 store or on the glyph's own code, and requests interleave between the cuts; each step below runs
 one such stretch. The history fields record what happened, for the theorems about runs.
 */
module Server {
  import opened Texts
  import opened Json
  import opened Crypto
  import opened Cards
  import opened Receipts
  import opened JsMaps
  import opened Stores

  const CONFIRMATION_TTL_MS: int := 300_000

  datatype Config = Config(
    suite: Suite,
    privateKey: Text,
    maxPendingConfirmations: nat,
    dedupeTtlMs: Option<int>)

  // ----- Glyphs and the scope gate -----

  /** A registered definition; its schemas and its handler are outside the model. */
  datatype Glyph = Glyph(card: Card) {
    /** The scopes its card declares as required. */
    function Scopes(): seq<Value> {
      match FieldValue(card, RequiredScopes)
      case Some(Arr(items)) => items
      case _ => []
    }
  }

  predicate RequiresConfirmed(g: Glyph) {
    !Falsy(CostValue(g.card, RequiresConfirmation))
  }

  /** The caller's principal carries the scope. */
  predicate Carries(caller: Option<seq<Text>>, scope: Value) {
    match scope
    case Leaf(Str(s)) => caller.Some? && s in caller.value
    case _ => false
  }

  /** The required scopes the caller lacks; a caller that could not be resolved has none. */
  function MissingScopes(required: seq<Value>, caller: Option<seq<Text>>): seq<Value> {
    if required == [] then []
    else (if Carries(caller, required[0]) then [] else [required[0]]) + MissingScopes(required[1..], caller)
  }

  lemma {:induction false} MissingScopesIs(required: seq<Value>, caller: Option<seq<Text>>)
    ensures forall s :: s in MissingScopes(required, caller) <==> s in required && !Carries(caller, s)
  {
    if required != [] {
      MissingScopesIs(required[1..], caller);
      assert required == [required[0]] + required[1..];
    }
  }

  /** `register`: signs the card, unless the name is taken. */
  function SignCard(cfg: Config, g: Glyph): Glyph {
    g.(card := g.card.(
      publicKey := Some(cfg.suite.publicKeyOf(cfg.privateKey)),
      signature := Some(cfg.suite.sign(cfg.privateKey, g.card.id))))
  }

  // ----- Requests -----

  /** A call whose input is valid. */
  datatype Request = Request(glyph: Glyph, input: Value, caller: Option<seq<Text>>, callId: Option<Text>, token: Option<Text>)

  function HashOf(cfg: Config, r: Request): Text {
    CanonicalHash(cfg.suite, r.input)
  }

  function KeyOf(cfg: Config, r: Request): Option<Text> {
    if cfg.dedupeTtlMs.Some? && Truthy(r.callId)
    then Some(DedupeKey(r.glyph.card.name, r.callId.value, HashOf(cfg, r))) else None
  }

  /** Where a request is. `startedAt` and `seen` say when its dedupe lookup ran, and after how many recorded responses. */
  datatype Phase =
    | Swept(name: Text, input: Value, caller: Option<seq<Text>>, at: int, backlog: nat)
    | Looked(request: Request, startedAt: int, seen: nat, cached: Option<Envelope>)
    | Consumed(request: Request, startedAt: int, seen: nat, ticket: Pending)
    | Running(request: Request, startedAt: int, seen: nat, run: nat)

  // ----- History -----

  datatype Issue = Issue(name: Text, input: Value, caller: Option<seq<Text>>, expiresAt: int)

  datatype HandlerRun = HandlerRun(request: Request, at: int, startedAt: int, seen: nat)

  /** A recorded response: the execution it was sealed around, by which run, and when. */
  datatype Record = Record(request: Request, made: Receipts.Execution, at: int, run: nat)

  datatype Answer = Answer(request: Request, startedAt: int, envelope: Envelope, replayed: bool)

  datatype State = State(
    clock: int,
    glyphs: map<Text, Glyph>,
    tickets: JsMap<Text, Pending>,
    responses: JsMap<Text, Recorded<Envelope>>,
    inflight: map<nat, Phase>,
    issued: map<Text, Issue>,
    runs: seq<HandlerRun>,
    records: seq<Record>,
    answers: seq<Answer>)

  function Start(clock: int): State {
    State(clock, map[], [], [], map[], map[], [], [], [])
  }

  // ----- Steps -----

  /** What a successful handler run yields: the sanitized output with its report, and the receipt's own data. */
  datatype Output = Output(callId: Text, output: Value, report: seq<Member>, latencyMs: NumberLiteral, timestamp: Text)

  datatype Step =
    | Register(glyph: Glyph)
    | PrepareSweep(id: nat, name: Text, input: Value, caller: Option<seq<Text>>, now: int)
    | PreparePut(id: nat, uuid: Text)
    | CallLookup(id: nat, name: Text, input: Value, caller: Option<seq<Text>>, callId: Option<Text>, token: Option<Text>, now: int)
    | CallConfirm(id: nat, now: int)
    | CallCheck(id: nat, now: int)
    | CallFinish(id: nat, result: Option<Output>, now: int)

  /** A ticket as the store keeps it. */
  function Ticket(cfg: Config, i: Issue): Pending {
    Pending(i.name, CanonicalHash(cfg.suite, i.input), i.expiresAt)
  }

  function Leave(s: State, id: nat): State {
    s.(inflight := s.inflight - {id})
  }

  function Enter(s: State, id: nat, p: Phase): State {
    s.(inflight := s.inflight[id := p])
  }

  /** The handler starts running. */
  function Begin(s: State, id: nat, r: Request, startedAt: int, seen: nat): State {
    Enter(s.(runs := s.runs + [HandlerRun(r, s.clock, startedAt, seen)]), id, Running(r, startedAt, seen, |s.runs|))
  }

  function DoPrepareSweep(cfg: Config, s: State, id: nat, name: Text, input: Value, caller: Option<seq<Text>>): State {
    if name !in s.glyphs || MissingScopes(s.glyphs[name].Scopes(), caller) != [] then s
    else
      var tickets := Unexpired(s.tickets, s.clock);
      Enter(s.(tickets := tickets), id, Swept(name, input, caller, s.clock, |tickets|))
  }

  function DoPreparePut(cfg: Config, s: State, id: nat, token: Text): State {
    if !(id in s.inflight && s.inflight[id].Swept?) then s
    else
      var p := s.inflight[id];
      if p.backlog >= cfg.maxPendingConfirmations then Leave(s, id)
      else
        var issue := Issue(p.name, p.input, p.caller, p.at + CONFIRMATION_TTL_MS);
        Leave(s.(tickets := Put(s.tickets, token, Ticket(cfg, issue)), issued := s.issued[token := issue]), id)
  }

  function DoCallLookup(cfg: Config, s: State, id: nat, name: Text, input: Value, caller: Option<seq<Text>>,
                        callId: Option<Text>, token: Option<Text>): State
  {
    if name !in s.glyphs || MissingScopes(s.glyphs[name].Scopes(), caller) != [] then s
    else
      var r := Request(s.glyphs[name], input, caller, callId, token);
      match KeyOf(cfg, r)
      case None => Enter(s, id, Looked(r, s.clock, |s.records|, None))
      case Some(key) =>
        var (responses, cached) := Recall(s.responses, key, s.clock);
        Enter(s.(responses := responses), id, Looked(r, s.clock, |s.records|, cached))
  }

  function DoCallConfirm(cfg: Config, s: State, id: nat): State {
    if !(id in s.inflight && s.inflight[id].Looked?) then s
    else
      var Looked(r, startedAt, seen, cached) := s.inflight[id];
      if cached.Some? then Leave(s.(answers := s.answers + [Answer(r, startedAt, cached.value, true)]), id)
      else if !RequiresConfirmed(r.glyph) then Begin(s, id, r, startedAt, seen)
      else if !Truthy(r.token) then Leave(s, id)
      else
        match Get(s.tickets, r.token.value)
        case None => Leave(s, id)
        case Some(ticket) =>
          Enter(s.(tickets := Delete(s.tickets, r.token.value)), id, Consumed(r, startedAt, seen, ticket))
  }

  function DoCallCheck(cfg: Config, s: State, id: nat): State {
    if !(id in s.inflight && s.inflight[id].Consumed?) then s
    else
      var Consumed(r, startedAt, seen, ticket) := s.inflight[id];
      if s.clock < ticket.expiresAt && ticket.glyphName == r.glyph.card.name && ticket.inputHash == HashOf(cfg, r)
      then Begin(s, id, r, startedAt, seen)
      else Leave(s, id)
  }

  function Made(r: Request, o: Output): Receipts.Execution {
    Receipts.Execution(r.glyph.card, o.callId, r.callId, r.input, o.output, Obj(o.report), o.latencyMs, o.timestamp)
  }

  function DoCallFinish(cfg: Config, s: State, id: nat, result: Option<Output>): State {
    if !(id in s.inflight && s.inflight[id].Running?) then s
    else
      var Running(r, startedAt, seen, run) := s.inflight[id];
      match result
      case None => Leave(s, id)
      case Some(o) =>
        var x := Made(r, o);
        var envelope := Seal(cfg.suite, x, cfg.privateKey);
        var answered := s.(answers := s.answers + [Answer(r, startedAt, envelope, false)]);
        match KeyOf(cfg, r)
        case None => Leave(answered, id)
        case Some(key) =>
          Leave(answered.(
            responses := Remember(s.responses, key, envelope, cfg.dedupeTtlMs.value, s.clock),
            records := s.records + [Record(r, x, s.clock, run)]), id)
  }

  function At(s: State, now: int): State {
    s.(clock := now)
  }

  function Next(cfg: Config, s: State, step: Step): State {
    match step
    case Register(glyph) =>
      if glyph.card.name in s.glyphs then s else s.(glyphs := s.glyphs[glyph.card.name := SignCard(cfg, glyph)])
    case PrepareSweep(id, name, input, caller, now) => DoPrepareSweep(cfg, At(s, now), id, name, input, caller)
    case PreparePut(id, uuid) => DoPreparePut(cfg, s, id, uuid)
    case CallLookup(id, name, input, caller, callId, token, now) => DoCallLookup(cfg, At(s, now), id, name, input, caller, callId, token)
    case CallConfirm(id, now) => DoCallConfirm(cfg, At(s, now), id)
    case CallCheck(id, now) => DoCallCheck(cfg, At(s, now), id)
    case CallFinish(id, result, now) => DoCallFinish(cfg, At(s, now), id, result)
  }

  /** Time does not run backwards, a new request has its own id, and a random token was never issued before. */
  predicate Possible(s: State, step: Step) {
    match step
    case Register(_) => true
    case PrepareSweep(id, _, _, _, now) => now >= s.clock && id !in s.inflight
    case PreparePut(_, uuid) => uuid !in s.issued
    case CallLookup(id, _, _, _, _, _, now) => now >= s.clock && id !in s.inflight
    case CallConfirm(_, now) => now >= s.clock
    case CallCheck(_, now) => now >= s.clock
    case CallFinish(_, _, now) => now >= s.clock
  }

  predicate PossibleRun(cfg: Config, s: State, steps: seq<Step>)
    decreases |steps|
  {
    steps != [] ==> Possible(s, steps[0]) && PossibleRun(cfg, Next(cfg, s, steps[0]), steps[1..])
  }

  function Run(cfg: Config, s: State, steps: seq<Step>): State
    decreases |steps|
  {
    if steps == [] then s else Run(cfg, Next(cfg, s, steps[0]), steps[1..])
  }

  /** Whole seconds, rounded up and at least one, until the earliest ticket expires. */
  function RetryAfter(earliest: Option<int>, now: int): int {
    var expiry := if earliest.Some? then earliest.value else now + CONFIRMATION_TTL_MS;
    var seconds := (expiry - now + 999) / 1000;
    if seconds < 1 then 1 else seconds
  }
}
