/** Idempotent replay, and the envelopes the call handler answers with, over every interleaving. */
module ReplayProofs {
  import opened Texts
  import opened Json
  import opened Canonical
  import opened Crypto
  import opened Cards
  import opened Receipts
  import opened JsMaps
  import opened Stores
  import opened Server
  import opened ServerProofs

  function Ttl(cfg: Config): int {
    if cfg.dedupeTtlMs.Some? then cfg.dedupeTtlMs.value else 0
  }

  predicate SameKey(cfg: Config, r: Request, q: Request) {
    KeyOf(cfg, r).Some? && KeyOf(cfg, r) == KeyOf(cfg, q)
  }

  /** The response of `x` is to be replayed at time `now`. */
  predicate Live(cfg: Config, x: Record, now: int) {
    now < x.at + Ttl(cfg)
  }

  // ----- The invariants -----

  /** At the lookup, none of the `seen` responses of the request's key was live. */
  ghost predicate Fresh(cfg: Config, s: State, r: Request, startedAt: int, seen: nat) {
    seen <= |s.records| && startedAt <= s.clock &&
    forall i: nat | i < seen && SameKey(cfg, r, s.records[i].request) :: !Live(cfg, s.records[i], startedAt)
  }

  /** The envelope is a recorded response of the request's key, live at the lookup. */
  ghost predicate Replays(cfg: Config, s: State, r: Request, startedAt: int, e: Envelope) {
    exists i: nat :: i < |s.records| && ReplayOf(cfg, s.records[i], r, startedAt, e)
  }

  predicate ReplayOf(cfg: Config, x: Record, r: Request, startedAt: int, e: Envelope) {
    SameKey(cfg, r, x.request) && x.at <= startedAt && Live(cfg, x, startedAt) && e == Seal(cfg.suite, x.made, cfg.privateKey)
  }

  ghost predicate PhaseReplay(cfg: Config, s: State, p: Phase) {
    match p
    case Swept(_, _, _, _, _) => true
    case Looked(r, startedAt, seen, cached) =>
      if cached.Some? then Replays(cfg, s, r, startedAt, cached.value) else Fresh(cfg, s, r, startedAt, seen)
    case Consumed(r, startedAt, seen, _) => Fresh(cfg, s, r, startedAt, seen)
    case Running(r, startedAt, seen, run) =>
      Fresh(cfg, s, r, startedAt, seen) && run < |s.runs| && s.runs[run].request == r && s.runs[run].at <= s.clock
  }

  ghost predicate AnswerSound(cfg: Config, s: State, a: Answer) {
    Registered(cfg, s, a.request.glyph) &&
    if a.replayed then Replays(cfg, s, a.request, a.startedAt, a.envelope)
    else exists o: Output :: a.envelope == Seal(cfg.suite, Made(a.request, o), cfg.privateKey)
  }

  /** A record holds the response of an earlier run of its request. */
  ghost predicate RecordSound(cfg: Config, s: State, x: Record) {
    x.at <= s.clock && KeyOf(cfg, x.request).Some? && Registered(cfg, s, x.request.glyph) &&
    x.run < |s.runs| && s.runs[x.run].request == x.request && s.runs[x.run].at <= x.at &&
    exists o: Output :: x.made == Made(x.request, o)
  }

  ghost predicate HistorySound(cfg: Config, s: State) {
    (forall id | id in s.inflight :: PhaseReplay(cfg, s, s.inflight[id])) &&
    (forall i: nat | i < |s.runs| :: Fresh(cfg, s, s.runs[i].request, s.runs[i].startedAt, s.runs[i].seen)) &&
    (forall k: nat | k < |s.answers| :: AnswerSound(cfg, s, s.answers[k])) &&
    (forall i: nat | i < |s.records| :: RecordSound(cfg, s, s.records[i]))
  }

  predicate EntryOf(cfg: Config, x: Record, entry: Item<Text, Recorded<Envelope>>) {
    KeyOf(cfg, x.request) == Some(entry.key) &&
    entry.value == Recorded(Seal(cfg.suite, x.made, cfg.privateKey), x.at + Ttl(cfg))
  }

  predicate StillKept(cfg: Config, s: State, x: Record) {
    KeyOf(cfg, x.request).Some? && Live(cfg, x, s.clock) ==>
      var entry := Get(s.responses, KeyOf(cfg, x.request).value);
      entry.Some? && entry.value.expiresAt >= x.at + Ttl(cfg)
  }

  /** The store holds recorded responses only, and every live one, or a later one of the same key. */
  ghost predicate StoreSound(cfg: Config, s: State) {
    Distinct(s.responses) &&
    (forall entry | entry in s.responses :: exists i: nat :: i < |s.records| && EntryOf(cfg, s.records[i], entry)) &&
    (forall i: nat | i < |s.records| :: StillKept(cfg, s, s.records[i]))
  }

  ghost predicate ReplayInvariant(cfg: Config, s: State) {
    ScopesChecked(cfg, s) && HistorySound(cfg, s) && StoreSound(cfg, s)
  }

  // ----- What later states keep -----

  ghost predicate Extends(s: State, s': State) {
    s.clock <= s'.clock && s.records <= s'.records && s.runs <= s'.runs && s.answers <= s'.answers &&
    forall n | n in s.glyphs :: n in s'.glyphs && s'.glyphs[n] == s.glyphs[n]
  }

  lemma FreshStays(cfg: Config, s: State, s': State, r: Request, startedAt: int, seen: nat)
    requires Extends(s, s') && Fresh(cfg, s, r, startedAt, seen)
    ensures Fresh(cfg, s', r, startedAt, seen)
  {
    forall i: nat | i < seen ensures s'.records[i] == s.records[i] {
    }
  }

  lemma ReplaysStays(cfg: Config, s: State, s': State, r: Request, startedAt: int, e: Envelope)
    requires Extends(s, s') && Replays(cfg, s, r, startedAt, e)
    ensures Replays(cfg, s', r, startedAt, e)
  {
    var i: nat :| i < |s.records| && ReplayOf(cfg, s.records[i], r, startedAt, e);
    assert ReplayOf(cfg, s'.records[i], r, startedAt, e);
  }

  lemma PhaseStays(cfg: Config, s: State, s': State, p: Phase)
    requires Extends(s, s') && PhaseReplay(cfg, s, p)
    ensures PhaseReplay(cfg, s', p)
  {
    match p
    case Swept(_, _, _, _, _) =>
    case Looked(r, startedAt, seen, cached) =>
      if cached.Some? { ReplaysStays(cfg, s, s', r, startedAt, cached.value); } else { FreshStays(cfg, s, s', r, startedAt, seen); }
    case Consumed(r, startedAt, seen, _) => FreshStays(cfg, s, s', r, startedAt, seen);
    case Running(r, startedAt, seen, run) =>
      FreshStays(cfg, s, s', r, startedAt, seen);
      assert s'.runs[run] == s.runs[run];
  }

  lemma AnswerStays(cfg: Config, s: State, s': State, a: Answer)
    requires Extends(s, s') && AnswerSound(cfg, s, a)
    ensures AnswerSound(cfg, s', a)
  {
    if a.replayed {
      ReplaysStays(cfg, s, s', a.request, a.startedAt, a.envelope);
    }
  }

  lemma RecordStays(cfg: Config, s: State, s': State, x: Record)
    requires Extends(s, s') && RecordSound(cfg, s, x)
    ensures RecordSound(cfg, s', x)
  {
    assert s'.runs[x.run] == s.runs[x.run];
  }

  /** What is new in `s'` is sound already; all else is as in `s`. */
  ghost predicate Adds(cfg: Config, s: State, s': State) {
    (forall id | id in s'.inflight ::
      (id in s.inflight && s'.inflight[id] == s.inflight[id]) || PhaseReplay(cfg, s', s'.inflight[id])) &&
    (forall i: nat | |s.runs| <= i < |s'.runs| :: Fresh(cfg, s', s'.runs[i].request, s'.runs[i].startedAt, s'.runs[i].seen)) &&
    (forall k: nat | |s.answers| <= k < |s'.answers| :: AnswerSound(cfg, s', s'.answers[k])) &&
    (forall i: nat | |s.records| <= i < |s'.records| :: RecordSound(cfg, s', s'.records[i]))
  }

  lemma AddingKeepsHistory(cfg: Config, s: State, s': State)
    requires HistorySound(cfg, s) && Extends(s, s') && Adds(cfg, s, s')
    ensures HistorySound(cfg, s')
  {
    forall id | id in s'.inflight ensures PhaseReplay(cfg, s', s'.inflight[id]) {
      if id in s.inflight && s'.inflight[id] == s.inflight[id] { PhaseStays(cfg, s, s', s.inflight[id]); }
    }
    forall i: nat | i < |s'.runs| ensures Fresh(cfg, s', s'.runs[i].request, s'.runs[i].startedAt, s'.runs[i].seen) {
      if i < |s.runs| { FreshStays(cfg, s, s', s.runs[i].request, s.runs[i].startedAt, s.runs[i].seen); }
    }
    forall k: nat | k < |s'.answers| ensures AnswerSound(cfg, s', s'.answers[k]) {
      if k < |s.answers| { AnswerStays(cfg, s, s', s.answers[k]); }
    }
    forall i: nat | i < |s'.records| ensures RecordSound(cfg, s', s'.records[i]) {
      if i < |s.records| { RecordStays(cfg, s, s', s.records[i]); }
    }
  }

  lemma UntouchedStore(cfg: Config, s: State, s': State)
    requires StoreSound(cfg, s) && s'.responses == s.responses && s'.records == s.records && s.clock <= s'.clock
    ensures StoreSound(cfg, s')
  {
    forall i: nat | i < |s'.records| ensures StillKept(cfg, s', s'.records[i]) {
      assert StillKept(cfg, s, s.records[i]);
    }
  }

  // ----- Each step keeps them -----

  lemma LookupFreshOrReplayed(cfg: Config, s: State, r: Request)
    requires HistorySound(cfg, s) && StoreSound(cfg, s) && KeyOf(cfg, r).Some?
    ensures var (responses, cached) := Recall(s.responses, KeyOf(cfg, r).value, s.clock);
      if cached.Some? then Replays(cfg, s, r, s.clock, cached.value) else Fresh(cfg, s, r, s.clock, |s.records|)
  {
    var key := KeyOf(cfg, r).value;
    GetIs(s.responses, key);
    var cached := Recall(s.responses, key, s.clock).1;
    if cached.Some? {
      var entry := Item(key, Get(s.responses, key).value);
      assert entry in s.responses;
      var i: nat :| i < |s.records| && EntryOf(cfg, s.records[i], entry);
      assert RecordSound(cfg, s, s.records[i]);
      assert ReplayOf(cfg, s.records[i], r, s.clock, cached.value);
    } else {
      forall i: nat | i < |s.records| && SameKey(cfg, r, s.records[i].request) ensures !Live(cfg, s.records[i], s.clock) {
        assert StillKept(cfg, s, s.records[i]);
      }
    }
  }

  lemma LookupKeepsStore(cfg: Config, s: State, key: Text, s': State)
    requires StoreSound(cfg, s)
    requires s'.responses == Recall(s.responses, key, s.clock).0 && s'.records == s.records && s'.clock == s.clock
    ensures StoreSound(cfg, s')
  {
    if s'.responses != s.responses {
      DeleteIs(s.responses, key);
      forall i: nat | i < |s'.records| ensures StillKept(cfg, s', s'.records[i]) {
        var x := s.records[i];
        assert StillKept(cfg, s, x);
        if KeyOf(cfg, x.request).Some? && Live(cfg, x, s.clock) {
          var k := KeyOf(cfg, x.request).value;
          GetIs(s.responses, k);
          GetIs(s'.responses, k);
          assert Item(k, Get(s.responses, k).value) in s'.responses;
        }
      }
    }
  }

  /** The new phase is sound, and nothing else of the history changed. */
  lemma EnteringKeepsHistory(cfg: Config, s: State, id: nat, p: Phase, s': State)
    requires HistorySound(cfg, s) && PhaseReplay(cfg, s, p)
    requires s' == s.(responses := s'.responses, inflight := s.inflight[id := p])
    ensures HistorySound(cfg, s')
  {
    PhaseStays(cfg, s, s', p);
    AddingKeepsHistory(cfg, s, s');
  }

  lemma LookupKeepsReplay(cfg: Config, s: State, id: nat, name: Text, input: Value, caller: Option<seq<Text>>,
                          callId: Option<Text>, token: Option<Text>)
    requires HistorySound(cfg, s) && StoreSound(cfg, s) && id !in s.inflight
    ensures var s' := DoCallLookup(cfg, s, id, name, input, caller, callId, token);
      HistorySound(cfg, s') && StoreSound(cfg, s')
  {
    var s' := DoCallLookup(cfg, s, id, name, input, caller, callId, token);
    if id in s'.inflight {
      var r := s'.inflight[id].request;
      if KeyOf(cfg, r).Some? {
        LookupFreshOrReplayed(cfg, s, r);
        LookupKeepsStore(cfg, s, KeyOf(cfg, r).value, s');
      } else {
        UntouchedStore(cfg, s, s');
      }
      EnteringKeepsHistory(cfg, s, id, s'.inflight[id], s');
    }
  }

  lemma BeginKeepsHistory(cfg: Config, s: State, id: nat, r: Request, startedAt: int, seen: nat)
    requires HistorySound(cfg, s) && Fresh(cfg, s, r, startedAt, seen)
    ensures HistorySound(cfg, Begin(s, id, r, startedAt, seen))
  {
    var s' := Begin(s, id, r, startedAt, seen);
    FreshStays(cfg, s, s', r, startedAt, seen);
    AddingKeepsHistory(cfg, s, s');
  }

  lemma AnsweringKeepsHistory(cfg: Config, s: State, id: nat, a: Answer)
    requires HistorySound(cfg, s) && AnswerSound(cfg, s, a)
    ensures HistorySound(cfg, Leave(s.(answers := s.answers + [a]), id))
  {
    var s' := Leave(s.(answers := s.answers + [a]), id);
    AnswerStays(cfg, s, s', a);
    AddingKeepsHistory(cfg, s, s');
  }

  lemma MovingKeepsHistory(cfg: Config, s: State, s': State)
    requires HistorySound(cfg, s) && s' == s.(tickets := s'.tickets, inflight := s'.inflight)
    requires forall id | id in s'.inflight ::
      (id in s.inflight && s'.inflight[id] == s.inflight[id]) || PhaseReplay(cfg, s, s'.inflight[id])
    ensures HistorySound(cfg, s')
  {
    forall id | id in s'.inflight ensures PhaseReplay(cfg, s', s'.inflight[id]) {
      PhaseStays(cfg, s, s', s'.inflight[id]);
    }
    AddingKeepsHistory(cfg, s, s');
  }

  lemma ConfirmKeepsHistory(cfg: Config, s: State, id: nat)
    requires HistorySound(cfg, s) && ScopesChecked(cfg, s)
    ensures HistorySound(cfg, DoCallConfirm(cfg, s, id))
  {
    if id in s.inflight && s.inflight[id].Looked? {
      var Looked(r, startedAt, seen, cached) := s.inflight[id];
      assert PhaseReplay(cfg, s, s.inflight[id]) && PhaseScoped(cfg, s, s.inflight[id]);
      if cached.Some? {
        AnsweringKeepsHistory(cfg, s, id, Answer(r, startedAt, cached.value, true));
      } else if !RequiresConfirmed(r.glyph) {
        BeginKeepsHistory(cfg, s, id, r, startedAt, seen);
      } else {
        MovingKeepsHistory(cfg, s, DoCallConfirm(cfg, s, id));
      }
    }
  }

  lemma CheckKeepsHistory(cfg: Config, s: State, id: nat)
    requires HistorySound(cfg, s)
    ensures HistorySound(cfg, DoCallCheck(cfg, s, id))
  {
    var s' := DoCallCheck(cfg, s, id);
    if id in s.inflight && s.inflight[id].Consumed? {
      var Consumed(r, startedAt, seen, _) := s.inflight[id];
      assert PhaseReplay(cfg, s, s.inflight[id]);
      if s'.runs != s.runs {
        BeginKeepsHistory(cfg, s, id, r, startedAt, seen);
      } else {
        AddingKeepsHistory(cfg, s, s');
      }
    }
  }

  lemma RecordingKeepsHistory(cfg: Config, s: State, x: Record, s': State)
    requires HistorySound(cfg, s) && RecordSound(cfg, s, x)
    requires s' == s.(responses := s'.responses, records := s.records + [x])
    ensures HistorySound(cfg, s')
  {
    RecordStays(cfg, s, s', x);
    AddingKeepsHistory(cfg, s, s');
  }

  lemma FinishKeepsHistory(cfg: Config, s: State, id: nat, result: Option<Output>)
    requires HistorySound(cfg, s) && ScopesChecked(cfg, s)
    ensures HistorySound(cfg, DoCallFinish(cfg, s, id, result))
  {
    if id in s.inflight && s.inflight[id].Running? {
      var Running(r, startedAt, _, run) := s.inflight[id];
      assert PhaseReplay(cfg, s, s.inflight[id]) && PhaseScoped(cfg, s, s.inflight[id]);
      match result
      case None => MovingKeepsHistory(cfg, s, Leave(s, id));
      case Some(o) =>
        var a := Answer(r, startedAt, Seal(cfg.suite, Made(r, o), cfg.privateKey), false);
        AnsweringKeepsHistory(cfg, s, id, a);
        if KeyOf(cfg, r).Some? {
          RecordingKeepsHistory(cfg, Leave(s.(answers := s.answers + [a]), id), Record(r, Made(r, o), s.clock, run),
                                DoCallFinish(cfg, s, id, result));
        }
    }
  }

  /** `s'` is `s` after the response of `x` was recorded. */
  ghost predicate JustRecorded(cfg: Config, s: State, x: Record, s': State) {
    KeyOf(cfg, x.request).Some? && x.at == s.clock == s'.clock && s'.records == s.records + [x] &&
    s'.responses ==
      Remember(s.responses, KeyOf(cfg, x.request).value, Seal(cfg.suite, x.made, cfg.privateKey), Ttl(cfg), s.clock)
  }

  lemma RecordingKeepsEntries(cfg: Config, s: State, x: Record, s': State)
    requires StoreSound(cfg, s) && JustRecorded(cfg, s, x, s')
    ensures Distinct(s'.responses)
    ensures forall entry | entry in s'.responses :: exists i: nat :: i < |s'.records| && EntryOf(cfg, s'.records[i], entry)
  {
    RememberIs(s.responses, KeyOf(cfg, x.request).value, Seal(cfg.suite, x.made, cfg.privateKey), Ttl(cfg), s.clock);
    forall entry | entry in s'.responses ensures exists i: nat :: i < |s'.records| && EntryOf(cfg, s'.records[i], entry) {
      if entry in s.responses {
        var i: nat :| i < |s.records| && EntryOf(cfg, s.records[i], entry);
        assert s'.records[i] == s.records[i];
      } else {
        assert EntryOf(cfg, s'.records[|s.records|], entry);
      }
    }
  }

  lemma RecordingKeepsLive(cfg: Config, s: State, x: Record, s': State, y: Record)
    requires Distinct(s.responses) && JustRecorded(cfg, s, x, s')
    requires y == x || (StillKept(cfg, s, y) && y.at <= s.clock)
    ensures StillKept(cfg, s', y)
  {
    RememberIs(s.responses, KeyOf(cfg, x.request).value, Seal(cfg.suite, x.made, cfg.privateKey), Ttl(cfg), s.clock);
  }

  lemma RecordingKeepsStore(cfg: Config, s: State, x: Record, s': State)
    requires StoreSound(cfg, s) && JustRecorded(cfg, s, x, s')
    requires forall i: nat | i < |s.records| :: s.records[i].at <= s.clock
    ensures StoreSound(cfg, s')
  {
    RecordingKeepsEntries(cfg, s, x, s');
    forall i: nat | i < |s'.records| ensures StillKept(cfg, s', s'.records[i]) {
      assert i < |s.records| ==> StillKept(cfg, s, s.records[i]);
      RecordingKeepsLive(cfg, s, x, s', s'.records[i]);
    }
  }

  lemma FinishKeepsStore(cfg: Config, s: State, id: nat, result: Option<Output>)
    requires StoreSound(cfg, s) && HistorySound(cfg, s)
    ensures StoreSound(cfg, DoCallFinish(cfg, s, id, result))
  {
    var s' := DoCallFinish(cfg, s, id, result);
    if s'.records == s.records {
      UntouchedStore(cfg, s, s');
    } else {
      assert forall i: nat | i < |s.records| :: RecordSound(cfg, s, s.records[i]);
      RecordingKeepsStore(cfg, s, s'.records[|s.records|], s');
    }
  }

  lemma RegisterKeepsReplay(cfg: Config, s: State, g: Glyph)
    requires HistorySound(cfg, s) && StoreSound(cfg, s)
    ensures var s' := Next(cfg, s, Register(g)); HistorySound(cfg, s') && StoreSound(cfg, s')
  {
    var s' := Next(cfg, s, Register(g));
    AddingKeepsHistory(cfg, s, s');
    UntouchedStore(cfg, s, s');
  }

  lemma PrepareKeepsReplay(cfg: Config, s: State, s': State)
    requires HistorySound(cfg, s) && StoreSound(cfg, s)
    requires s' == s.(tickets := s'.tickets, issued := s'.issued, inflight := s'.inflight)
    requires forall id | id in s'.inflight :: (id in s.inflight && s'.inflight[id] == s.inflight[id]) || s'.inflight[id].Swept?
    ensures HistorySound(cfg, s') && StoreSound(cfg, s')
  {
    AddingKeepsHistory(cfg, s, s');
    UntouchedStore(cfg, s, s');
  }

  lemma ConfirmKeepsReplay(cfg: Config, s: State, id: nat)
    requires ReplayInvariant(cfg, s)
    ensures var s' := DoCallConfirm(cfg, s, id); HistorySound(cfg, s') && StoreSound(cfg, s')
  {
    ConfirmKeepsHistory(cfg, s, id);
    UntouchedStore(cfg, s, DoCallConfirm(cfg, s, id));
  }

  lemma CheckKeepsReplay(cfg: Config, s: State, id: nat)
    requires ReplayInvariant(cfg, s)
    ensures var s' := DoCallCheck(cfg, s, id); HistorySound(cfg, s') && StoreSound(cfg, s')
  {
    CheckKeepsHistory(cfg, s, id);
    UntouchedStore(cfg, s, DoCallCheck(cfg, s, id));
  }

  lemma TimedStepKeepsReplay(cfg: Config, s: State, step: Step)
    requires ReplayInvariant(cfg, s) && Possible(s, step)
    requires !step.Register? && !step.PreparePut? && StepTime(step) == s.clock
    ensures HistorySound(cfg, Next(cfg, s, step)) && StoreSound(cfg, Next(cfg, s, step))
  {
    var s' := Next(cfg, s, step);
    assert At(s, s.clock) == s;
    match step
    case PrepareSweep(_, _, _, _, _) => PrepareKeepsReplay(cfg, s, s');
    case CallLookup(id, name, input, caller, callId, token, _) => LookupKeepsReplay(cfg, s, id, name, input, caller, callId, token);
    case CallConfirm(id, _) => ConfirmKeepsReplay(cfg, s, id);
    case CallCheck(id, _) => CheckKeepsReplay(cfg, s, id);
    case CallFinish(id, result, _) =>
      FinishKeepsHistory(cfg, s, id, result);
      FinishKeepsStore(cfg, s, id, result);
  }

  lemma TimePasses(cfg: Config, s: State, now: int)
    requires ReplayInvariant(cfg, s) && s.clock <= now
    ensures ReplayInvariant(cfg, At(s, now))
  {
    AddingKeepsHistory(cfg, s, At(s, now));
    UntouchedStore(cfg, s, At(s, now));
    assert forall p :: PhaseScoped(cfg, s, p) ==> PhaseScoped(cfg, At(s, now), p);
  }

  lemma NextKeepsReplay(cfg: Config, s: State, step: Step)
    requires ReplayInvariant(cfg, s) && GlyphsSigned(cfg, s) && Possible(s, step)
    ensures ReplayInvariant(cfg, Next(cfg, s, step)) && GlyphsSigned(cfg, Next(cfg, s, step))
  {
    NextKeepsScopes(cfg, s, step);
    match step
    case Register(g) => RegisterKeepsReplay(cfg, s, g);
    case PreparePut(id, uuid) => PrepareKeepsReplay(cfg, s, Next(cfg, s, step));
    case _ =>
      TimePasses(cfg, s, StepTime(step));
      TimedStepKeepsReplay(cfg, At(s, StepTime(step)), step);
  }

  lemma {:induction false} RunKeepsReplay(cfg: Config, s: State, steps: seq<Step>)
    requires ReplayInvariant(cfg, s) && GlyphsSigned(cfg, s) && PossibleRun(cfg, s, steps)
    ensures ReplayInvariant(cfg, Run(cfg, s, steps)) && GlyphsSigned(cfg, Run(cfg, s, steps))
    decreases |steps|
  {
    if steps != [] {
      NextKeepsReplay(cfg, s, steps[0]);
      RunKeepsReplay(cfg, Next(cfg, s, steps[0]), steps[1..]);
    }
  }

  lemma StartKeepsReplay(cfg: Config, clock: int, steps: seq<Step>)
    requires PossibleRun(cfg, Start(clock), steps)
    ensures ReplayInvariant(cfg, Run(cfg, Start(clock), steps)) && GlyphsSigned(cfg, Run(cfg, Start(clock), steps))
  {
    RunKeepsReplay(cfg, Start(clock), steps);
  }

  // ----- Main results -----

  /** No registered name, followed by ':', begins another. Without this, two glyphs can share a key (`SharedKeysExactly`). */
  ghost predicate AllNamesApart(s: State) {
    forall n, m | n in s.glyphs && m in s.glyphs :: NamesApart(n, m)
  }

  ghost predicate DigestsHaveNoColon(c: Suite) {
    forall m :: SEPARATOR !in c.sha(m)
  }

  predicate SameCall(cfg: Config, r: Request, q: Request) {
    r.glyph == q.glyph && r.callId == q.callId && HashOf(cfg, r) == HashOf(cfg, q)
  }

  lemma SameKeyIsSameCall(cfg: Config, s: State, r: Request, q: Request)
    requires DigestsHaveNoColon(cfg.suite) && AllNamesApart(s)
    requires Registered(cfg, s, r.glyph) && Registered(cfg, s, q.glyph) && SameKey(cfg, r, q)
    ensures SameCall(cfg, r, q)
  {
    DedupeKeyInjective(r.glyph.card.name, r.callId.value, HashOf(cfg, r), q.glyph.card.name, q.callId.value, HashOf(cfg, q));
  }

  /**
   Every replayed answer was recorded by an earlier, successful run of the same glyph with the same
   call id and input hash, less than the time-to-live before the replay was looked up.
   */
  lemma ReplayedAnswersWereRecorded(cfg: Config, clock: int, steps: seq<Step>, k: nat)
    requires PossibleRun(cfg, Start(clock), steps)
    requires var s := Run(cfg, Start(clock), steps);
      DigestsHaveNoColon(cfg.suite) && AllNamesApart(s) && k < |s.answers| && s.answers[k].replayed
    ensures var s := Run(cfg, Start(clock), steps);
      exists i: nat :: i < |s.records| && Answers(cfg, s, s.records[i], s.answers[k])
  {
    var s := Run(cfg, Start(clock), steps);
    StartKeepsReplay(cfg, clock, steps);
    ReplayWasRecorded(cfg, s, k);
  }

  /** The answer is this record's envelope, for the same call, in time, and a run made it. */
  predicate Answers(cfg: Config, s: State, x: Record, a: Answer) {
    a.envelope == Seal(cfg.suite, x.made, cfg.privateKey) && SameCall(cfg, x.request, a.request) &&
    x.at <= a.startedAt < x.at + Ttl(cfg) && x.run < |s.runs| && s.runs[x.run].request == x.request && s.runs[x.run].at <= x.at
  }

  lemma ReplayWasRecorded(cfg: Config, s: State, k: nat)
    requires ReplayInvariant(cfg, s) && GlyphsSigned(cfg, s) && DigestsHaveNoColon(cfg.suite) && AllNamesApart(s)
    requires k < |s.answers| && s.answers[k].replayed
    ensures exists i: nat :: i < |s.records| && Answers(cfg, s, s.records[i], s.answers[k])
  {
    var a := s.answers[k];
    assert AnswerSound(cfg, s, a);
    var i: nat :| i < |s.records| && ReplayOf(cfg, s.records[i], a.request, a.startedAt, a.envelope);
    assert RecordSound(cfg, s, s.records[i]);
    SameKeyIsSameCall(cfg, s, a.request, s.records[i].request);
    assert Answers(cfg, s, s.records[i], a);
  }

  // ----- Lookups and records in time -----

  /** The responses recorded since a lookup are not older than it. */
  predicate InTime(s: State, startedAt: int, seen: nat) {
    startedAt <= s.clock && seen <= |s.records| && forall i: nat | seen <= i < |s.records| :: s.records[i].at >= startedAt
  }

  predicate PhaseInTime(s: State, p: Phase) {
    !p.Swept? ==> InTime(s, p.startedAt, p.seen)
  }

  ghost predicate LookupsInTime(s: State) {
    (forall id | id in s.inflight :: PhaseInTime(s, s.inflight[id])) &&
    (forall j: nat | j < |s.runs| :: InTime(s, s.runs[j].startedAt, s.runs[j].seen))
  }

  /** Time moves on, at most one response is recorded, and what is new was looked up in time. */
  ghost predicate StaysInTime(s: State, s': State) {
    s.clock <= s'.clock && (s'.records == s.records || exists x: Record :: s'.records == s.records + [x] && x.at == s'.clock) &&
    (forall id | id in s'.inflight :: (id in s.inflight && s'.inflight[id] == s.inflight[id]) || PhaseInTime(s', s'.inflight[id])) &&
    (s'.runs == s.runs || exists x: HandlerRun :: s'.runs == s.runs + [x] && InTime(s', x.startedAt, x.seen))
  }

  lemma InTimeStays(s: State, s': State, startedAt: int, seen: nat)
    requires InTime(s, startedAt, seen) && StaysInTime(s, s')
    ensures InTime(s', startedAt, seen)
  {
    forall i: nat | seen <= i < |s'.records| ensures s'.records[i].at >= startedAt {
      if i < |s.records| { assert s'.records[i] == s.records[i]; }
    }
  }

  lemma LookupsStayInTime(s: State, s': State)
    requires LookupsInTime(s) && StaysInTime(s, s')
    ensures LookupsInTime(s')
  {
    forall id | id in s'.inflight ensures PhaseInTime(s', s'.inflight[id]) {
      if id in s.inflight && s'.inflight[id] == s.inflight[id] && !s.inflight[id].Swept? {
        InTimeStays(s, s', s.inflight[id].startedAt, s.inflight[id].seen);
      }
    }
    forall j: nat | j < |s'.runs| ensures InTime(s', s'.runs[j].startedAt, s'.runs[j].seen) {
      if j < |s.runs| { InTimeStays(s, s', s.runs[j].startedAt, s.runs[j].seen); }
    }
  }

  lemma BeginInTime(s: State, id: nat, r: Request, startedAt: int, seen: nat)
    requires InTime(s, startedAt, seen)
    ensures StaysInTime(s, Begin(s, id, r, startedAt, seen))
  {
    var x := HandlerRun(r, s.clock, startedAt, seen);
    assert Begin(s, id, r, startedAt, seen).runs == s.runs + [x];
  }

  lemma ConfirmInTime(cfg: Config, s: State, id: nat)
    requires LookupsInTime(s)
    ensures StaysInTime(s, DoCallConfirm(cfg, s, id))
  {
    if id in s.inflight && s.inflight[id].Looked? {
      assert PhaseInTime(s, s.inflight[id]);
      BeginInTime(s, id, s.inflight[id].request, s.inflight[id].startedAt, s.inflight[id].seen);
    }
  }

  lemma CheckInTime(cfg: Config, s: State, id: nat)
    requires LookupsInTime(s)
    ensures StaysInTime(s, DoCallCheck(cfg, s, id))
  {
    if id in s.inflight && s.inflight[id].Consumed? {
      assert PhaseInTime(s, s.inflight[id]);
      BeginInTime(s, id, s.inflight[id].request, s.inflight[id].startedAt, s.inflight[id].seen);
    }
  }

  lemma FinishInTime(cfg: Config, s: State, id: nat, result: Option<Output>)
    ensures StaysInTime(s, DoCallFinish(cfg, s, id, result))
  {
    var s' := DoCallFinish(cfg, s, id, result);
    if s'.records != s.records {
      assert s'.records == s.records + [s'.records[|s.records|]];
    }
  }

  lemma NextInTime(cfg: Config, s: State, step: Step)
    requires LookupsInTime(s) && Possible(s, step)
    ensures LookupsInTime(Next(cfg, s, step))
  {
    match step
    case Register(_) => LookupsStayInTime(s, Next(cfg, s, step));
    case PreparePut(_, _) => LookupsStayInTime(s, Next(cfg, s, step));
    case _ =>
      LookupsStayInTime(s, At(s, StepTime(step)));
      NextAt(cfg, s, step);
      TimedStepInTime(cfg, At(s, StepTime(step)), step);
      LookupsStayInTime(At(s, StepTime(step)), Next(cfg, s, step));
  }

  lemma SweepInTime(cfg: Config, s: State, id: nat, name: Text, input: Value, caller: Option<seq<Text>>)
    ensures StaysInTime(s, DoPrepareSweep(cfg, s, id, name, input, caller))
  {
  }

  lemma LookupInTime(cfg: Config, s: State, id: nat, name: Text, input: Value, caller: Option<seq<Text>>,
                     callId: Option<Text>, token: Option<Text>)
    ensures StaysInTime(s, DoCallLookup(cfg, s, id, name, input, caller, callId, token))
  {
  }

  lemma TimedStepInTime(cfg: Config, s: State, step: Step)
    requires LookupsInTime(s) && !step.Register? && !step.PreparePut? && StepTime(step) == s.clock
    ensures StaysInTime(s, Next(cfg, s, step))
  {
    assert At(s, s.clock) == s;
    match step
    case PrepareSweep(id, name, input, caller, _) => SweepInTime(cfg, s, id, name, input, caller);
    case CallLookup(id, name, input, caller, callId, token, _) => LookupInTime(cfg, s, id, name, input, caller, callId, token);
    case CallConfirm(id, _) => ConfirmInTime(cfg, s, id);
    case CallCheck(id, _) => CheckInTime(cfg, s, id);
    case CallFinish(id, result, _) => FinishInTime(cfg, s, id, result);
  }

  lemma {:induction false} RunInTime(cfg: Config, s: State, steps: seq<Step>)
    requires LookupsInTime(s) && PossibleRun(cfg, s, steps)
    ensures LookupsInTime(Run(cfg, s, steps))
    decreases |steps|
  {
    if steps != [] {
      NextInTime(cfg, s, steps[0]);
      RunInTime(cfg, Next(cfg, s, steps[0]), steps[1..]);
    }
  }

  /**
   The handler ran for a call within the time-to-live of a response of the same glyph, call id and
   input hash exactly when the call's lookup came before that response was recorded. Where the
   lookup came after the recording, the time-to-live had passed.
   */
  lemma RunsAgainExactly(cfg: Config, clock: int, steps: seq<Step>, j: nat, i: nat)
    requires PossibleRun(cfg, Start(clock), steps)
    requires var s := Run(cfg, Start(clock), steps);
      j < |s.runs| && i < |s.records| && SameCall(cfg, s.runs[j].request, s.records[i].request)
    ensures var s := Run(cfg, Start(clock), steps);
      i < s.runs[j].seen ==> s.records[i].at + Ttl(cfg) <= s.runs[j].startedAt
    ensures var s := Run(cfg, Start(clock), steps);
      Ttl(cfg) >= 1 ==> (Live(cfg, s.records[i], s.runs[j].startedAt) <==> s.runs[j].seen <= i)
  {
    var s := Run(cfg, Start(clock), steps);
    StartKeepsReplay(cfg, clock, steps);
    RunInTime(cfg, Start(clock), steps);
    assert Fresh(cfg, s, s.runs[j].request, s.runs[j].startedAt, s.runs[j].seen);
    assert RecordSound(cfg, s, s.records[i]);
    assert SameKey(cfg, s.runs[j].request, s.records[i].request);
    assert InTime(s, s.runs[j].startedAt, s.runs[j].seen);
  }

  lemma RunOfOneMore(cfg: Config, s: State, step: Step, rest: seq<Step>)
    requires Server.Possible(s, step) && PossibleRun(cfg, Next(cfg, s, step), rest)
    ensures PossibleRun(cfg, s, [step] + rest) && Run(cfg, s, [step] + rest) == Run(cfg, Next(cfg, s, step), rest)
  {
    assert ([step] + rest)[1..] == rest;
  }

  /** Two requests that looked their key up before either recorded a response both start the handler. */
  lemma BothRun(cfg: Config, s: State, r: Request)
    requires !RequiresConfirmed(r.glyph) && s.runs == []
    requires s.inflight == map[0 := Looked(r, s.clock, 0, None), 1 := Looked(r, s.clock, 0, None)]
    ensures var steps := [CallConfirm(0, s.clock)] + ([CallConfirm(1, s.clock)] + []);
      PossibleRun(cfg, s, steps) && |Run(cfg, s, steps).runs| == 2 &&
      Run(cfg, s, steps).runs[0].request == r == Run(cfg, s, steps).runs[1].request
  {
    var s1 := Next(cfg, s, CallConfirm(0, s.clock));
    assert s1.inflight == map[0 := Running(r, s.clock, 0, 0), 1 := Looked(r, s.clock, 0, None)];
    RunOfOneMore(cfg, s1, CallConfirm(1, s.clock), []);
    RunOfOneMore(cfg, s, CallConfirm(0, s.clock), [CallConfirm(1, s.clock)] + []);
  }

  /** The request that such a lookup makes of an open glyph. */
  function OpenRequest(g: Glyph, input: Value, callId: Text): Request {
    Request(g, input, None, Some(callId), None)
  }

  function OpenLookup(s: State, id: nat, g: Glyph, input: Value, callId: Text): Step {
    CallLookup(id, g.card.name, input, None, Some(callId), None, s.clock)
  }

  /** With nothing recorded yet, a lookup lets the request on. */
  lemma LooksUp(cfg: Config, s: State, id: nat, g: Glyph, input: Value, callId: Text)
    requires cfg.dedupeTtlMs.Some? && callId != [] && g.Scopes() == []
    requires g.card.name in s.glyphs && s.glyphs[g.card.name] == g && s.responses == [] && s.records == [] && id !in s.inflight
    ensures Server.Possible(s, OpenLookup(s, id, g, input, callId))
    ensures Next(cfg, s, OpenLookup(s, id, g, input, callId)) ==
      s.(inflight := s.inflight[id := Looked(OpenRequest(g, input, callId), s.clock, 0, None)])
  {
    assert MissingScopes(g.Scopes(), None) == [];
  }

  /** Two such lookups, and then both confirmations. */
  lemma BothLookUpAndRun(cfg: Config, s: State, g: Glyph, input: Value, callId: Text) returns (steps: seq<Step>)
    requires cfg.dedupeTtlMs.Some? && callId != [] && g.Scopes() == [] && !RequiresConfirmed(g)
    requires g.card.name in s.glyphs && s.glyphs[g.card.name] == g
    requires s.responses == [] && s.records == [] && s.inflight == map[] && s.runs == []
    ensures PossibleRun(cfg, s, steps) && RanTwice(cfg, Run(cfg, s, steps))
  {
    var r := OpenRequest(g, input, callId);
    var first, second := OpenLookup(s, 0, g, input, callId), OpenLookup(s, 1, g, input, callId);
    LooksUp(cfg, s, 0, g, input, callId);
    var s1 := Next(cfg, s, first);
    LooksUp(cfg, s1, 1, g, input, callId);
    var s2 := Next(cfg, s1, second);
    assert s2.inflight == map[0 := Looked(r, s2.clock, 0, None), 1 := Looked(r, s2.clock, 0, None)];
    BothRun(cfg, s2, r);
    var confirms := [CallConfirm(0, s2.clock)] + ([CallConfirm(1, s2.clock)] + []);
    RunOfOneMore(cfg, s1, second, confirms);
    RunOfOneMore(cfg, s, first, [second] + confirms);
    steps := [first] + ([second] + confirms);
  }

  /** Calls that overlap are not covered: the same call sent twice at once runs the handler twice. */
  lemma OverlappingCallsRunTwice(cfg: Config, g: Glyph, input: Value, callId: Text, clock: int)
    requires cfg.dedupeTtlMs.Some? && callId != [] && g.Scopes() == [] && !RequiresConfirmed(g)
    ensures exists steps :: PossibleRun(cfg, Start(clock), steps) && RanTwice(cfg, Run(cfg, Start(clock), steps))
  {
    var signed, s0 := SignCard(cfg, g), Start(clock);
    var s1 := Next(cfg, s0, Register(g));
    assert signed.Scopes() == [];
    assert CostValue(signed.card, RequiresConfirmation) == CostValue(g.card, RequiresConfirmation);
    var steps := BothLookUpAndRun(cfg, s1, signed, input, callId);
    RunOfOneMore(cfg, s0, Register(g), steps);
  }

  /** Two runs of one call with the same idempotency key. */
  ghost predicate RanTwice(cfg: Config, s: State) {
    |s.runs| == 2 && SameKey(cfg, s.runs[0].request, s.runs[1].request)
  }

  /**
   End to end: every answer of the call handler, fresh or replayed, passes all six client checks when
   the pin is the card the server serves, and that card verifies if its id is the hash of its content.
   */
  lemma EveryAnswerAccepted(cfg: Config, clock: int, steps: seq<Step>, k: nat)
    requires SignaturesVerify(cfg.suite) && DigestsHaveNoColon(cfg.suite) && PossibleRun(cfg, Start(clock), steps)
    requires var s := Run(cfg, Start(clock), steps);
      AllNamesApart(s) && k < |s.answers| && Truthy(s.answers[k].request.callId)
    ensures var s := Run(cfg, Start(clock), steps);
      var a := s.answers[k];
      var name := a.request.glyph.card.name;
      name in s.glyphs && var served := s.glyphs[name].card;
        Accepts(cfg.suite, a.envelope, served, a.request.callId.value) &&
        (Honest(cfg.suite, served) ==> VerifyGlyph(cfg.suite, served))
  {
    var s := Run(cfg, Start(clock), steps);
    StartKeepsReplay(cfg, clock, steps);
    var a := s.answers[k];
    assert AnswerSound(cfg, s, a);
    var served := a.request.glyph.card;
    assert served.publicKey == Some(cfg.suite.publicKeyOf(cfg.privateKey));
    if Honest(cfg.suite, served) { SignedCardVerifies(cfg.suite, served, cfg.privateKey); }
    AnswerIsSealed(cfg, s, a);
    var q: Request, o: Output :| SameGlyphAndId(q, a.request) && a.envelope == Seal(cfg.suite, Made(q, o), cfg.privateKey);
    SealedEnvelopeAccepted(cfg.suite, Made(q, o), cfg.privateKey, served, a.request.callId.value);
  }

  predicate SameGlyphAndId(r: Request, q: Request) {
    r.glyph == q.glyph && r.callId == q.callId
  }

  lemma AnswerIsSealed(cfg: Config, s: State, a: Answer)
    requires DigestsHaveNoColon(cfg.suite) && AllNamesApart(s) && ReplayInvariant(cfg, s) && AnswerSound(cfg, s, a)
    ensures exists q: Request, o: Output ::
      SameGlyphAndId(q, a.request) && a.envelope == Seal(cfg.suite, Made(q, o), cfg.privateKey)
  {
    if a.replayed {
      var i: nat :| i < |s.records| && ReplayOf(cfg, s.records[i], a.request, a.startedAt, a.envelope);
      var x := s.records[i];
      assert RecordSound(cfg, s, x);
      SameKeyIsSameCall(cfg, s, a.request, x.request);
      var o: Output :| x.made == Made(x.request, o);
      assert SameGlyphAndId(x.request, a.request) && a.envelope == Seal(cfg.suite, Made(x.request, o), cfg.privateKey);
    } else {
      var o: Output :| a.envelope == Seal(cfg.suite, Made(a.request, o), cfg.privateKey);
      assert SameGlyphAndId(a.request, a.request);
    }
  }

  // ----- And only answers are accepted -----

  /** The answer was sealed around this execution. */
  ghost predicate SealedAround(cfg: Config, a: Answer, x: Receipts.Execution) {
    !a.replayed && a.envelope == Seal(cfg.suite, x, cfg.privateKey) && exists o: Output :: x == Made(a.request, o)
  }

  /** What the server's key has signed in the run so far: the ids of the registered cards, and one receipt for every fresh answer. */
  ghost predicate SignedIn(cfg: Config, s: State, e: Signed) {
    match e
    case CardId(card) => exists n :: n in s.glyphs && s.glyphs[n].card == card
    case ReceiptHash(x) => exists k: nat :: k < |s.answers| && SealedAround(cfg, s.answers[k], x)
    case OtherHash(_) => false
  }

  ghost function SignedBy(cfg: Config, s: State): iset<Signed> {
    iset e | SignedIn(cfg, s, e)
  }

  /** The answer went to this call of the pinned card, with this payload up to the order of keys. */
  ghost predicate AnswersCall(cfg: Config, s: State, a: Answer, payload: Value, pinned: Card, callId: Text) {
    !a.replayed && Registered(cfg, s, a.request.glyph) && a.request.glyph.card.id == pinned.id &&
    a.envelope.payload.Some? && Forget(a.envelope.payload.value) == Forget(payload) &&
    if Truthy(a.request.callId) then a.request.callId == Some(callId) else a.envelope.callId == callId
  }

  /**
   The converse, for every run: if nobody else can sign with the server's key, which beside what it
   signs in the run may have signed any objects without `glyphId`, then whatever envelope a client
   accepts carries the payload of an answer of that run to this very call of the pinned card.
   */
  lemma AcceptedIsAnAnswer(cfg: Config, clock: int, steps: seq<Step>, others: iset<Signed>, e: Envelope, pinned: Card, callId: Text)
    requires CollisionFree(cfg.suite) && PossibleRun(cfg, Start(clock), steps)
    requires var record := SignedBy(cfg, Run(cfg, Start(clock), steps)) + others;
      Unforgeable(cfg.suite, cfg.privateKey, record) && forall x | x in record :: RecordWellFormed(cfg.suite, x)
    requires forall x | x in others :: x.OtherHash?
    requires pinned.publicKey == Some(cfg.suite.publicKeyOf(cfg.privateKey)) && Accepts(cfg.suite, e, pinned, callId)
    requires WellFormedMembers(e.receipt.value.rest) && WellFormed(e.payload.value)
    ensures var s := Run(cfg, Start(clock), steps);
      exists k: nat :: k < |s.answers| && AnswersCall(cfg, s, s.answers[k], e.payload.value, pinned, callId)
  {
    StartKeepsReplay(cfg, clock, steps);
    var s := Run(cfg, Start(clock), steps);
    AcceptedInState(cfg, s, SignedBy(cfg, s) + others, e, pinned, callId);
  }

  lemma AcceptedInState(cfg: Config, s: State, record: iset<Signed>, e: Envelope, pinned: Card, callId: Text)
    requires CollisionFree(cfg.suite) && HistorySound(cfg, s)
    requires Unforgeable(cfg.suite, cfg.privateKey, record) && forall x | x in record :: RecordWellFormed(cfg.suite, x)
    requires forall x | x in record :: x.OtherHash? || SignedIn(cfg, s, x)
    requires pinned.publicKey == Some(cfg.suite.publicKeyOf(cfg.privateKey)) && Accepts(cfg.suite, e, pinned, callId)
    requires WellFormedMembers(e.receipt.value.rest) && WellFormed(e.payload.value)
    ensures exists k: nat :: k < |s.answers| && AnswersCall(cfg, s, s.answers[k], e.payload.value, pinned, callId)
  {
    AcceptedWasServed(cfg.suite, cfg.privateKey, record, e, pinned, callId);
    var x: Receipts.Execution :| ReceiptHash(x) in record && ServedFor(x, e.payload.value, pinned, callId);
    ServedByAnAnswer(cfg, s, x, e.payload.value, pinned, callId);
  }

  lemma ServedByAnAnswer(cfg: Config, s: State, x: Receipts.Execution, payload: Value, pinned: Card, callId: Text)
    requires HistorySound(cfg, s) && SignedIn(cfg, s, ReceiptHash(x)) && ServedFor(x, payload, pinned, callId)
    ensures exists k: nat :: k < |s.answers| && AnswersCall(cfg, s, s.answers[k], payload, pinned, callId)
  {
    var k: nat :| k < |s.answers| && SealedAround(cfg, s.answers[k], x);
    assert AnswerSound(cfg, s, s.answers[k]);
    assert AnswersCall(cfg, s, s.answers[k], payload, pinned, callId);
  }
}
