/**
 The server object: its registered glyphs, its two stores, and the stretches of its handlers that
 run between two awaits. Each method performs one step of the state machine in module Server; the
 ghost field `state` is that machine's state, including its history.
 */
module ServerHandlers {
  import opened Texts
  import opened Json
  import opened Crypto
  import opened Cards
  import opened Receipts
  import opened JsMaps
  import opened Stores
  import opened Server

  datatype Reply =
    | Continues
    | NotFound
    | InsufficientScope(missing: seq<Value>)
    | BacklogFull(retryAfter: int)
    | TicketIssued(token: Text, expiresAt: int)
    | ConfirmationRequired
    | InvalidConfirmation
    | HandlerFailed
    | Answered(envelope: Envelope)

  class GlyphServer {
    const cfg: Config
    const confirmations: MemoryConfirmationStore
    const dedupe: MemoryDedupeStore<Envelope>
    var glyphs: map<Text, Glyph>
    ghost var state: State

    ghost predicate Valid()
      reads this, confirmations, dedupe
    {
      state.glyphs == glyphs && state.tickets == confirmations.entries && state.responses == dedupe.entries
    }

    constructor (cfg: Config, ghost clock: int)
      ensures Valid() && this.cfg == cfg && state == Start(clock) && fresh(confirmations) && fresh(dedupe)
    {
      this.cfg := cfg;
      confirmations := new MemoryConfirmationStore();
      dedupe := new MemoryDedupeStore<Envelope>();
      glyphs := map[];
      state := Start(clock);
    }

    /** Fails, changing nothing, when the name is taken. */
    method RegisterGlyph(glyph: Glyph) returns (ok: bool)
      requires Valid()
      modifies this
      ensures Valid() && state == Next(cfg, old(state), Step.Register(glyph))
      ensures ok <==> glyph.card.name !in old(glyphs)
    {
      if glyph.card.name in glyphs {
        return false;
      }
      var publicKey, signature := cfg.suite.publicKeyOf(cfg.privateKey), cfg.suite.sign(cfg.privateKey, glyph.card.id);
      var signedCard := glyph.card.(publicKey := Some(publicKey), signature := Some(signature));
      glyphs := glyphs[signedCard.name := glyph.(card := signedCard)];
      state := Next(cfg, state, Step.Register(glyph));
      return true;
    }

    method Sweep(id: nat, name: Text, input: Value, caller: Option<seq<Text>>, now: int)
      returns (reply: Reply, size: nat, earliest: Option<int>)
      requires Valid()
      modifies this, confirmations
      ensures Valid() && state == Next(cfg, old(state), PrepareSweep(id, name, input, caller, now))
      ensures reply.Continues? ==> id in state.inflight && state.inflight[id] == Swept(name, input, caller, now, size)
      ensures reply.Continues? ==> size == |state.tickets| && earliest == Earliest(state.tickets)
      ensures reply == if name !in glyphs then NotFound
        else var missing := MissingScopes(glyphs[name].Scopes(), caller);
          if missing != [] then InsufficientScope(missing) else Continues
    {
      size, earliest := 0, None;
      state := Next(cfg, state, PrepareSweep(id, name, input, caller, now));
      if name !in glyphs {
        return NotFound, size, earliest;
      }
      var missing := MissingScopes(glyphs[name].Scopes(), caller);
      if |missing| > 0 {
        return InsufficientScope(missing), size, earliest;
      }
      size, earliest := confirmations.SweepAll(now);
      reply := Continues;
    }

    method IssueTicket(id: nat, name: Text, input: Value, now: int, size: nat, earliest: Option<int>, uuid: Text) returns (reply: Reply)
      requires Valid() && id in state.inflight && state.inflight[id].Swept?
      requires var p := state.inflight[id]; p.name == name && p.input == input && p.at == now && p.backlog == size
      modifies this, confirmations
      ensures Valid() && state == Next(cfg, old(state), PreparePut(id, uuid))
      ensures reply == if size >= cfg.maxPendingConfirmations then BacklogFull(RetryAfter(earliest, now))
        else TicketIssued(uuid, now + CONFIRMATION_TTL_MS)
    {
      state := Next(cfg, state, PreparePut(id, uuid));
      if size >= cfg.maxPendingConfirmations {
        return BacklogFull(RetryAfter(earliest, now));
      }
      var expiresAt := now + CONFIRMATION_TTL_MS;
      confirmations.Issue(uuid, Pending(name, CanonicalHash(cfg.suite, input), expiresAt));
      reply := TicketIssued(uuid, expiresAt);
    }

    method LookUp(id: nat, name: Text, input: Value, caller: Option<seq<Text>>, callId: Option<Text>, token: Option<Text>, now: int)
      returns (reply: Reply, cached: Option<Envelope>)
      requires Valid()
      modifies this, dedupe
      ensures Valid() && state == Next(cfg, old(state), CallLookup(id, name, input, caller, callId, token, now))
      ensures reply.Continues? ==> name in glyphs && id in state.inflight && state.inflight[id].Looked?
      ensures reply.Continues? ==> state.inflight[id].request == Request(glyphs[name], input, caller, callId, token)
      ensures reply.Continues? ==> state.inflight[id].cached == cached
      ensures reply == if name !in glyphs then NotFound
        else var missing := MissingScopes(glyphs[name].Scopes(), caller);
          if missing != [] then InsufficientScope(missing) else Continues
    {
      cached := None;
      state := Next(cfg, state, CallLookup(id, name, input, caller, callId, token, now));
      if name !in glyphs {
        return NotFound, cached;
      }
      var missing := MissingScopes(glyphs[name].Scopes(), caller);
      if |missing| > 0 {
        return InsufficientScope(missing), cached;
      }
      var key := KeyOf(cfg, Request(glyphs[name], input, caller, callId, token));
      if key.Some? {
        cached := dedupe.Recover(key.value, now);
      }
      reply := Continues;
    }

    method Confirm(id: nat, r: Request, cached: Option<Envelope>, now: int) returns (reply: Reply, pending: Option<Pending>)
      requires Valid() && id in state.inflight && state.inflight[id].Looked?
      requires state.inflight[id].request == r && state.inflight[id].cached == cached
      modifies this, confirmations
      ensures Valid() && state == Next(cfg, old(state), CallConfirm(id, now))
      ensures reply == if cached.Some? then Answered(cached.value)
        else if !RequiresConfirmed(r.glyph) then Continues
        else if !Truthy(r.token) then ConfirmationRequired
        else if Get(old(state.tickets), r.token.value).None? then InvalidConfirmation
        else Continues
      ensures pending.Some? ==> id in state.inflight && state.inflight[id].Consumed?
      ensures pending.Some? ==> state.inflight[id].request == r && state.inflight[id].ticket == pending.value
    {
      pending := None;
      state := Next(cfg, state, CallConfirm(id, now));
      if cached.Some? {
        return Answered(cached.value), pending;
      }
      if RequiresConfirmed(r.glyph) {
        if !Truthy(r.token) {
          return ConfirmationRequired, pending;
        }
        DeleteAbsent(confirmations.entries, r.token.value);
        pending := confirmations.Consume(r.token.value);
        if pending.None? {
          return InvalidConfirmation, pending;
        }
      }
      reply := Continues;
    }

    method Check(id: nat, r: Request, pending: Pending, now: int) returns (reply: Reply)
      requires Valid() && id in state.inflight && state.inflight[id].Consumed?
      requires state.inflight[id].request == r && state.inflight[id].ticket == pending
      modifies this
      ensures Valid() && state == Next(cfg, old(state), CallCheck(id, now))
      ensures reply == if now < pending.expiresAt && pending.glyphName == r.glyph.card.name && pending.inputHash == HashOf(cfg, r)
        then Continues else InvalidConfirmation
    {
      state := Next(cfg, state, CallCheck(id, now));
      var valid := now < pending.expiresAt && pending.glyphName == r.glyph.card.name && pending.inputHash == HashOf(cfg, r);
      if !valid {
        return InvalidConfirmation;
      }
      reply := Continues;
    }

    /** What follows the handler: seal its output, record the response if the call has a key, answer. */
    method Finish(id: nat, r: Request, result: Option<Output>, now: int) returns (reply: Reply)
      requires Valid() && id in state.inflight && state.inflight[id].Running? && state.inflight[id].request == r
      modifies this, dedupe
      ensures Valid() && state == Next(cfg, old(state), CallFinish(id, result, now))
      ensures reply == if result.None? then HandlerFailed else Answered(Seal(cfg.suite, Made(r, result.value), cfg.privateKey))
    {
      state := Next(cfg, state, CallFinish(id, result, now));
      if result.None? {
        return HandlerFailed;
      }
      var response := Seal(cfg.suite, Made(r, result.value), cfg.privateKey);
      var key := KeyOf(cfg, r);
      if key.Some? {
        dedupe.Keep(key.value, response, cfg.dedupeTtlMs.value, now);
      }
      reply := Answered(response);
    }
  }
}
