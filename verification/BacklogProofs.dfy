/** The bound on pending confirmation tickets, and what the advertised Retry-After is worth. */
module BacklogProofs {
  import opened Texts
  import opened Json
  import opened Cards
  import opened JsMaps
  import opened Stores
  import opened Server

  /** Prepare requests that passed the size check and have not put their ticket yet. */
  function Admitted(cfg: Config, s: State): set<nat> {
    set id | id in s.inflight && s.inflight[id].Swept? && s.inflight[id].backlog < cfg.maxPendingConfirmations
  }

  /** At no state of the run are more than `atOnce` prepare requests between their sweep and their put. */
  predicate AtMostAdmitted(cfg: Config, s: State, steps: seq<Step>, atOnce: nat)
    decreases |steps|
  {
    |Admitted(cfg, s)| <= atOnce && (steps != [] ==> AtMostAdmitted(cfg, Next(cfg, s, steps[0]), steps[1..], atOnce))
  }

  predicate BacklogBounded(cfg: Config, s: State, atOnce: nat) {
    Distinct(s.tickets) && |s.tickets| + |Admitted(cfg, s)| <= cfg.maxPendingConfirmations - 1 + atOnce
  }

  lemma SweepKeepsBound(cfg: Config, s: State, id: nat, name: Text, input: Value, caller: Option<seq<Text>>, atOnce: nat)
    requires BacklogBounded(cfg, s, atOnce) && id !in s.inflight
    requires var s' := DoPrepareSweep(cfg, s, id, name, input, caller); |Admitted(cfg, s')| <= atOnce
    ensures BacklogBounded(cfg, DoPrepareSweep(cfg, s, id, name, input, caller), atOnce)
  {
    var s' := DoPrepareSweep(cfg, s, id, name, input, caller);
    UnexpiredIs(s.tickets, s.clock);
    if id !in Admitted(cfg, s') {
      assert Admitted(cfg, s') == Admitted(cfg, s);
    }
  }

  lemma PutKeepsBound(cfg: Config, s: State, id: nat, uuid: Text, atOnce: nat)
    requires BacklogBounded(cfg, s, atOnce)
    ensures BacklogBounded(cfg, DoPreparePut(cfg, s, id, uuid), atOnce)
  {
    var s' := DoPreparePut(cfg, s, id, uuid);
    SubsetSize(Admitted(cfg, s'), Admitted(cfg, s));
    if id in Admitted(cfg, s) {
      var p := s.inflight[id];
      PutIs(s.tickets, uuid, Ticket(cfg, Issue(p.name, p.input, p.caller, p.at + CONFIRMATION_TTL_MS)));
      assert id !in Admitted(cfg, s');
    }
  }

  /** A step that admits no prepare and adds no ticket. */
  lemma ShrinkingKeepsBound(cfg: Config, s: State, s': State, atOnce: nat)
    requires BacklogBounded(cfg, s, atOnce) && Distinct(s'.tickets) && |s'.tickets| <= |s.tickets|
    requires Admitted(cfg, s') <= Admitted(cfg, s)
    ensures BacklogBounded(cfg, s', atOnce)
  {
    SubsetSize(Admitted(cfg, s'), Admitted(cfg, s));
  }

  lemma ConfirmShrinks(cfg: Config, s: State, id: nat)
    requires Distinct(s.tickets)
    ensures var s' := DoCallConfirm(cfg, s, id);
      Distinct(s'.tickets) && |s'.tickets| <= |s.tickets| && Admitted(cfg, s') <= Admitted(cfg, s)
  {
    if id in s.inflight && s.inflight[id].Looked? && Truthy(s.inflight[id].request.token) {
      DeleteIs(s.tickets, s.inflight[id].request.token.value);
    }
  }

  lemma NextKeepsBound(cfg: Config, s: State, step: Step, atOnce: nat)
    requires BacklogBounded(cfg, s, atOnce) && Possible(s, step)
    requires |Admitted(cfg, Next(cfg, s, step))| <= atOnce
    ensures BacklogBounded(cfg, Next(cfg, s, step), atOnce)
  {
    match step
    case PrepareSweep(id, name, input, caller, now) =>
      assert Admitted(cfg, At(s, now)) == Admitted(cfg, s);
      SweepKeepsBound(cfg, At(s, now), id, name, input, caller, atOnce);
    case PreparePut(id, uuid) => PutKeepsBound(cfg, s, id, uuid, atOnce);
    case CallConfirm(id, now) =>
      ConfirmShrinks(cfg, At(s, now), id);
      ShrinkingKeepsBound(cfg, s, Next(cfg, s, step), atOnce);
    case _ => ShrinkingKeepsBound(cfg, s, Next(cfg, s, step), atOnce);
  }

  lemma {:induction false} RunKeepsBound(cfg: Config, s: State, steps: seq<Step>, atOnce: nat)
    requires BacklogBounded(cfg, s, atOnce) && PossibleRun(cfg, s, steps) && AtMostAdmitted(cfg, s, steps, atOnce)
    ensures BacklogBounded(cfg, Run(cfg, s, steps), atOnce)
    decreases |steps|
  {
    if steps != [] {
      NextKeepsBound(cfg, s, steps[0], atOnce);
      RunKeepsBound(cfg, Next(cfg, s, steps[0]), steps[1..], atOnce);
    }
  }

  /**
   With at most `atOnce` prepares between sweep and put, pending tickets never exceed the cap by
   more than `atOnce` - 1; a server that handles prepares one at a time never exceeds it.
   */
  lemma BacklogStaysNearCap(cfg: Config, clock: int, steps: seq<Step>, atOnce: nat)
    requires PossibleRun(cfg, Start(clock), steps) && AtMostAdmitted(cfg, Start(clock), steps, atOnce)
    requires atOnce >= 1
    ensures |Run(cfg, Start(clock), steps).tickets| <= cfg.maxPendingConfirmations - 1 + atOnce
  {
    assert Admitted(cfg, Start(clock)) == {};
    RunKeepsBound(cfg, Start(clock), steps, atOnce);
  }

  // ----- The bound is reached -----

  lemma RunOfOneMore(cfg: Config, s: State, step: Step, rest: seq<Step>, atOnce: nat)
    requires Possible(s, step) && |Admitted(cfg, s)| <= atOnce
    requires PossibleRun(cfg, Next(cfg, s, step), rest) && AtMostAdmitted(cfg, Next(cfg, s, step), rest, atOnce)
    ensures PossibleRun(cfg, s, [step] + rest) && AtMostAdmitted(cfg, s, [step] + rest, atOnce)
    ensures Run(cfg, s, [step] + rest) == Run(cfg, Next(cfg, s, step), rest)
  {
    assert ([step] + rest)[1..] == rest;
  }

  /** One prepare after the other: a run followed by a run. */
  lemma {:induction false} RunThenRun(cfg: Config, s: State, first: seq<Step>, second: seq<Step>, atOnce: nat)
    requires PossibleRun(cfg, s, first) && AtMostAdmitted(cfg, s, first, atOnce)
    requires PossibleRun(cfg, Run(cfg, s, first), second) && AtMostAdmitted(cfg, Run(cfg, s, first), second, atOnce)
    ensures PossibleRun(cfg, s, first + second) && AtMostAdmitted(cfg, s, first + second, atOnce)
    ensures Run(cfg, s, first + second) == Run(cfg, Run(cfg, s, first), second)
    decreases |first|
  {
    if first == [] {
      assert first + second == second;
    } else {
      RunThenRun(cfg, Next(cfg, s, first[0]), first[1..], second, atOnce);
      RunOfOneMore(cfg, s, first[0], first[1..] + second, atOnce);
      assert first + second == [first[0]] + (first[1..] + second);
    }
  }

  /** A request for a ticket that met a backlog of `met`. */
  function Waiting(name: Text, input: Value, clock: int, met: nat): Phase {
    Swept(name, input, None, clock, met)
  }

  /** The tokens issued so far are the first `n` numerals. */
  ghost predicate Numbered(tokens: set<Text>, n: nat) {
    forall token | token in tokens :: exists i: nat :: i < n && token == Decimal(i)
  }

  lemma NextNumber(tokens: set<Text>, n: nat)
    requires Numbered(tokens, n)
    ensures Decimal(n) !in tokens && Numbered(tokens + {Decimal(n)}, n + 1)
  {
    if Decimal(n) in tokens {
      var i: nat :| i < n && Decimal(n) == Decimal(i);
      DecimalInjective(i, n);
    }
    forall token | token in tokens + {Decimal(n)} ensures exists i: nat :: i < n + 1 && token == Decimal(i) {
      if token in tokens { var i: nat :| i < n && token == Decimal(i); }
    }
  }

  /** `n` unexpired tickets are pending, and the requests `a` to `b` wait to put theirs; all of them met a backlog of `met`. */
  ghost predicate Piled(s: State, name: Text, input: Value, n: nat, met: nat, a: nat, b: nat) {
    name in s.glyphs && s.glyphs[name].Scopes() == [] && a <= b &&
    Distinct(s.tickets) && |s.tickets| == n && (forall x | x in s.tickets :: s.clock < x.value.expiresAt && x.key in s.issued) &&
    Numbered(s.issued.Keys, n) &&
    (forall id :: id in s.inflight <==> a <= id < b) &&
    (forall id | a <= id < b :: s.inflight[id] == Waiting(name, input, s.clock, met))
  }

  lemma {:induction false} Span(a: nat, b: nat) returns (ids: set<nat>)
    requires a <= b
    ensures |ids| == b - a && forall id :: id in ids <==> a <= id < b
    decreases b - a
  {
    ids := {};
    if a < b {
      var rest := Span(a + 1, b);
      ids := rest + {a};
    }
  }

  lemma PiledAdmits(cfg: Config, s: State, name: Text, input: Value, n: nat, met: nat, a: nat, b: nat)
    requires Piled(s, name, input, n, met, a, b)
    ensures |Admitted(cfg, s)| <= b - a
  {
    var ids := Span(a, b);
    assert Admitted(cfg, s) <= ids;
    SubsetSize(Admitted(cfg, s), ids);
  }

  lemma SweepPiles(cfg: Config, s: State, name: Text, input: Value, n: nat, met: nat, a: nat, b: nat)
    requires Piled(s, name, input, n, met, a, b) && (a == b || met == n)
    ensures Possible(s, PrepareSweep(b, name, input, None, s.clock))
    ensures Piled(Next(cfg, s, PrepareSweep(b, name, input, None, s.clock)), name, input, n, n, a, b + 1)
  {
    NoneExpired(s.tickets, s.clock);
  }

  lemma PutPiles(cfg: Config, s: State, name: Text, input: Value, n: nat, met: nat, a: nat, b: nat)
    requires Piled(s, name, input, n, met, a, b) && a < b && met < cfg.maxPendingConfirmations
    ensures Possible(s, PreparePut(a, Decimal(n)))
    ensures Piled(Next(cfg, s, PreparePut(a, Decimal(n))), name, input, n + 1, met, a + 1, b)
  {
    var token := Decimal(n);
    var issue := Issue(name, input, None, s.clock + CONFIRMATION_TTL_MS);
    NextNumber(s.issued.Keys, n);
    PutIs(s.tickets, token, Ticket(cfg, issue));
    GetIs(s.tickets, token);
    var s' := Next(cfg, s, PreparePut(a, token));
    assert s'.issued == s.issued[token := issue] && s'.issued.Keys == s.issued.Keys + {token};
  }

  /** Prepares handled one at a time fill the backlog up to `target`. */
  lemma {:induction false} FillOneByOne(cfg: Config, s: State, name: Text, input: Value, n: nat, id: nat, target: nat, atOnce: nat)
    returns (steps: seq<Step>, end: nat)
    requires Piled(s, name, input, n, n, id, id) && n <= target < cfg.maxPendingConfirmations && atOnce >= 1
    ensures PossibleRun(cfg, s, steps) && AtMostAdmitted(cfg, s, steps, atOnce)
    ensures Piled(Run(cfg, s, steps), name, input, target, target, end, end)
    decreases target - n
  {
    PiledAdmits(cfg, s, name, input, n, n, id, id);
    if n == target {
      return [], id;
    }
    var sweep, put := PrepareSweep(id, name, input, None, s.clock), PreparePut(id, Decimal(n));
    var s1 := Next(cfg, s, sweep);
    var s2 := Next(cfg, s1, put);
    SweepPiles(cfg, s, name, input, n, n, id, id);
    PiledAdmits(cfg, s1, name, input, n, n, id, id + 1);
    PutPiles(cfg, s1, name, input, n, n, id, id + 1);
    var rest;
    rest, end := FillOneByOne(cfg, s2, name, input, n + 1, id + 1, target, atOnce);
    RunOfOneMore(cfg, s1, put, rest, atOnce);
    RunOfOneMore(cfg, s, sweep, [put] + rest, atOnce);
    steps := [sweep] + ([put] + rest);
  }

  /** Then as many prepares as may be at once sweep, before any of them puts. */
  lemma {:induction false} SweepAllAtOnce(cfg: Config, s: State, name: Text, input: Value, n: nat, a: nat, b: nat, atOnce: nat)
    returns (steps: seq<Step>)
    requires Piled(s, name, input, n, n, a, b) && b - a <= atOnce
    ensures PossibleRun(cfg, s, steps) && AtMostAdmitted(cfg, s, steps, atOnce)
    ensures Piled(Run(cfg, s, steps), name, input, n, n, a, a + atOnce)
    decreases a + atOnce - b
  {
    PiledAdmits(cfg, s, name, input, n, n, a, b);
    if b - a == atOnce {
      return [];
    }
    var sweep := PrepareSweep(b, name, input, None, s.clock);
    SweepPiles(cfg, s, name, input, n, n, a, b);
    var rest := SweepAllAtOnce(cfg, Next(cfg, s, sweep), name, input, n, a, b + 1, atOnce);
    RunOfOneMore(cfg, s, sweep, rest, atOnce);
    steps := [sweep] + rest;
  }

  lemma {:induction false} PutAll(cfg: Config, s: State, name: Text, input: Value, n: nat, met: nat, a: nat, b: nat, atOnce: nat)
    returns (steps: seq<Step>)
    requires Piled(s, name, input, n, met, a, b) && met < cfg.maxPendingConfirmations && b - a <= atOnce
    ensures PossibleRun(cfg, s, steps) && AtMostAdmitted(cfg, s, steps, atOnce)
    ensures |Run(cfg, s, steps).tickets| == n + (b - a)
    decreases b - a
  {
    PiledAdmits(cfg, s, name, input, n, met, a, b);
    if a == b {
      return [];
    }
    var put := PreparePut(a, Decimal(n));
    PutPiles(cfg, s, name, input, n, met, a, b);
    var rest := PutAll(cfg, Next(cfg, s, put), name, input, n + 1, met, a + 1, b, atOnce);
    RunOfOneMore(cfg, s, put, rest, atOnce);
    steps := [put] + rest;
  }

  /**
   The bound is reached, for every cap and every number of prepares at once: fill the backlog to one
   below the cap, let all prepares sweep, then let all of them put.
   */
  lemma InterleavedPreparesReachBound(cfg: Config, g: Glyph, input: Value, clock: int, atOnce: nat) returns (steps: seq<Step>)
    requires cfg.maxPendingConfirmations >= 1 && atOnce >= 1 && g.Scopes() == []
    ensures PossibleRun(cfg, Start(clock), steps) && AtMostAdmitted(cfg, Start(clock), steps, atOnce)
    ensures |Run(cfg, Start(clock), steps).tickets| == cfg.maxPendingConfirmations - 1 + atOnce
  {
    var name, cap := g.card.name, cfg.maxPendingConfirmations;
    var s1 := Next(cfg, Start(clock), Register(g));
    assert Piled(s1, name, input, 0, 0, 0, 0);
    var fill, id := FillOneByOne(cfg, s1, name, input, 0, 0, cap - 1, atOnce);
    var s2 := Run(cfg, s1, fill);
    var sweeps := SweepAllAtOnce(cfg, s2, name, input, cap - 1, id, id, atOnce);
    var s3 := Run(cfg, s2, sweeps);
    var puts := PutAll(cfg, s3, name, input, cap - 1, cap - 1, id, id + atOnce, atOnce);
    RunThenRun(cfg, s2, sweeps, puts, atOnce);
    RunThenRun(cfg, s1, fill, sweeps + puts, atOnce);
    assert Admitted(cfg, Start(clock)) == {};
    RunOfOneMore(cfg, Start(clock), Register(g), fill + (sweeps + puts), atOnce);
    steps := [Register(g)] + (fill + (sweeps + puts));
  }

  ghost predicate CapRespected(cfg: Config, clock: int, steps: seq<Step>) {
    |Run(cfg, Start(clock), steps).tickets| <= cfg.maxPendingConfirmations
  }

  lemma {:induction false} MoreAtOnce(cfg: Config, s: State, steps: seq<Step>, few: nat, many: nat)
    requires AtMostAdmitted(cfg, s, steps, few) && few <= many
    ensures AtMostAdmitted(cfg, s, steps, many)
    decreases |steps|
  {
    if steps != [] {
      MoreAtOnce(cfg, Next(cfg, s, steps[0]), steps[1..], few, many);
    }
  }

  /** The cap is respected on every run exactly when the server never handles two prepares at once. */
  lemma CapRespectedExactly(cfg: Config, clock: int, atOnce: nat)
    requires cfg.maxPendingConfirmations >= 1
    ensures atOnce <= 1 <==>
      forall steps :: PossibleRun(cfg, Start(clock), steps) && AtMostAdmitted(cfg, Start(clock), steps, atOnce) ==>
        CapRespected(cfg, clock, steps)
  {
    if atOnce <= 1 {
      forall steps | PossibleRun(cfg, Start(clock), steps) && AtMostAdmitted(cfg, Start(clock), steps, atOnce)
        ensures CapRespected(cfg, clock, steps)
      {
        MoreAtOnce(cfg, Start(clock), steps, atOnce, 1);
        BacklogStaysNearCap(cfg, clock, steps, 1);
      }
    } else {
      var g := Glyph(Card([], [], map[], None, None));
      var steps := InterleavedPreparesReachBound(cfg, g, Leaf(Null), clock, atOnce);
      assert !CapRespected(cfg, clock, steps);
    }
  }

  // ----- Retry-After -----

  lemma {:induction false} FewerEntries(few: JsMap<Text, Pending>, many: JsMap<Text, Pending>, gone: Item<Text, Pending>)
    requires Distinct(few) && Distinct(many)
    requires forall x | x in few :: x in many
    requires gone in many && gone !in few
    ensures |few| < |many|
  {
    SizeIsKeys(few);
    SizeIsKeys(many);
    var f, m := Keys(few), Keys(many);
    assert gone.key in m;
    if gone.key in f {
      var x :| x in few && x.key == gone.key;
      SameKeySameItem(many, x, gone);
    }
    assert f <= m - {gone.key};
    assert |m - {gone.key}| == |m| - 1;
    SubsetSize(f, m - {gone.key});
  }

  lemma SameKeySameItem(m: JsMap<Text, Pending>, x: Item<Text, Pending>, y: Item<Text, Pending>)
    requires Distinct(m) && x in m && y in m && x.key == y.key
    ensures x == y
  {
  }

  /** What a later sweep leaves, of tickets that were all in the backlog the refused prepare met. */
  lemma LaterSweep(cfg: Config, backlog: JsMap<Text, Pending>, now: int, after: JsMap<Text, Pending>, later: int)
    requires Distinct(backlog) && Unexpired(backlog, now) == backlog && backlog != []
    requires Distinct(after) && forall x | x in after :: x in backlog
    ensures var first := Earliest(backlog);
      first.Some? && 1000 * (RetryAfter(first, now) - 1) < first.value - now <= 1000 * RetryAfter(first, now) &&
      (later >= first.value ==> |Unexpired(after, later)| < |backlog|)
  {
    EarliestIs(backlog);
    UnexpiredIs(after, later);
    UnexpiredIs(backlog, now);
    assert backlog[0] in backlog;
    var x :| x in backlog && x.value.expiresAt == Earliest(backlog).value;
    if later >= x.value.expiresAt {
      FewerEntries(Unexpired(after, later), backlog, x);
    }
  }

  /** No step issues a ticket. */
  predicate NoTicketPut(cfg: Config, s: State, steps: seq<Step>)
    decreases |steps|
  {
    steps != [] ==> Next(cfg, s, steps[0]).issued == s.issued && NoTicketPut(cfg, Next(cfg, s, steps[0]), steps[1..])
  }

  /** No call consumes a ticket. */
  predicate NoTicketTaken(cfg: Config, s: State, steps: seq<Step>)
    decreases |steps|
  {
    steps != [] ==>
      (steps[0].CallConfirm? ==> Next(cfg, s, steps[0]).tickets == s.tickets) && NoTicketTaken(cfg, Next(cfg, s, steps[0]), steps[1..])
  }

  /** `few` are of `many`, and all of `many` that have not expired by `now` are there. */
  predicate KeepsLive(few: JsMap<Text, Pending>, many: JsMap<Text, Pending>, now: int) {
    forall x | x in many && !Lapsed(x.value, now) :: x in few
  }

  lemma TicketsAfterStep(cfg: Config, s: State, step: Step)
    requires Distinct(s.tickets)
    ensures Distinct(Next(cfg, s, step).tickets)
  {
    match step
    case PrepareSweep(_, _, _, _, now) => UnexpiredIs(s.tickets, now);
    case PreparePut(id, uuid) =>
      if id in s.inflight && s.inflight[id].Swept? {
        var p := s.inflight[id];
        PutIs(s.tickets, uuid, Ticket(cfg, Issue(p.name, p.input, p.caller, p.at + CONFIRMATION_TTL_MS)));
      }
    case CallConfirm(id, now) => ConfirmShrinks(cfg, At(s, now), id);
    case _ =>
  }

  lemma {:induction false} TicketsStayDistinct(cfg: Config, s: State, steps: seq<Step>)
    requires Distinct(s.tickets)
    ensures Distinct(Run(cfg, s, steps).tickets)
    decreases |steps|
  {
    if steps != [] {
      TicketsAfterStep(cfg, s, steps[0]);
      TicketsStayDistinct(cfg, Next(cfg, s, steps[0]), steps[1..]);
    }
  }

  lemma StepWithoutPut(cfg: Config, s: State, step: Step)
    requires Distinct(s.tickets) && Possible(s, step) && Next(cfg, s, step).issued == s.issued
    ensures var s' := Next(cfg, s, step);
      s.clock <= s'.clock && (forall x | x in s'.tickets :: x in s.tickets) &&
      ((step.CallConfirm? ==> s'.tickets == s.tickets) ==> KeepsLive(s'.tickets, s.tickets, s'.clock))
  {
    match step
    case PrepareSweep(_, _, _, _, now) => UnexpiredIs(s.tickets, now);
    case PreparePut(id, uuid) =>
      assert Next(cfg, s, step).tickets != s.tickets ==> uuid in Next(cfg, s, step).issued;
    case CallConfirm(id, _) =>
      if id in s.inflight && s.inflight[id].Looked? && Truthy(s.inflight[id].request.token) {
        DeleteIs(s.tickets, s.inflight[id].request.token.value);
      }
    case _ =>
  }

  lemma {:induction false} RunWithoutPut(cfg: Config, s: State, steps: seq<Step>)
    requires Distinct(s.tickets) && PossibleRun(cfg, s, steps) && NoTicketPut(cfg, s, steps)
    ensures var s' := Run(cfg, s, steps);
      s.clock <= s'.clock && (forall x | x in s'.tickets :: x in s.tickets) &&
      (NoTicketTaken(cfg, s, steps) ==> KeepsLive(s'.tickets, s.tickets, s'.clock))
    decreases |steps|
  {
    if steps != [] {
      StepWithoutPut(cfg, s, steps[0]);
      TicketsAfterStep(cfg, s, steps[0]);
      RunWithoutPut(cfg, Next(cfg, s, steps[0]), steps[1..]);
    }
  }

  lemma SameEntries(a: JsMap<Text, Pending>, b: JsMap<Text, Pending>)
    requires Distinct(a) && Distinct(b) && forall x :: x in a <==> x in b
    ensures |a| == |b|
  {
    SizeIsKeys(a);
    SizeIsKeys(b);
    assert Keys(a) == Keys(b);
  }

  /** A prepare request that passed the scope gate, with the size of the backlog it met. */
  predicate Met(s: State, id: nat, backlog: nat) {
    id in s.inflight && s.inflight[id].Swept? && s.inflight[id].backlog == backlog
  }

  lemma SweepMet(cfg: Config, s: State, step: Step, backlog: nat)
    requires step.PrepareSweep? && step.id !in s.inflight && Met(Next(cfg, s, step), step.id, backlog)
    ensures var s' := Next(cfg, s, step);
      s'.tickets == Unexpired(s.tickets, step.now) && backlog == |s'.tickets| && s'.clock == step.now
  {
  }

  /**
   Two prepares of a run, the first of them refused, and no ticket issued in between. If the second
   comes after the advertised Retry-After it meets a smaller backlog, below the cap if the first met
   one just at the cap. If no call consumes a ticket in between either, it meets a smaller backlog
   exactly from the earliest expiry on, so a second less than advertised would not do.
   */
  lemma RetryAfterFreesSlot(cfg: Config, clock: int, before: seq<Step>, refused: Step, between: seq<Step>, retry: Step,
                            met: nat, meets: nat)
    requires PossibleRun(cfg, Start(clock), before) && refused.PrepareSweep? && retry.PrepareSweep?
    requires var s := Run(cfg, Start(clock), before);
      Possible(s, refused) && Met(Next(cfg, s, refused), refused.id, met) && 1 <= cfg.maxPendingConfirmations <= met
    requires var s1 := Next(cfg, Run(cfg, Start(clock), before), refused);
      PossibleRun(cfg, s1, between) && NoTicketPut(cfg, s1, between) &&
      Possible(Run(cfg, s1, between), retry) && Met(Next(cfg, Run(cfg, s1, between), retry), retry.id, meets)
    ensures var s1 := Next(cfg, Run(cfg, Start(clock), before), refused);
      var first, seconds := Earliest(s1.tickets), RetryAfter(Earliest(s1.tickets), refused.now);
      first.Some? && refused.now + 1000 * (seconds - 1) < first.value <= refused.now + 1000 * seconds &&
      (retry.now >= first.value ==> meets < met) &&
      (retry.now >= first.value && met == cfg.maxPendingConfirmations ==> meets < cfg.maxPendingConfirmations) &&
      (NoTicketTaken(cfg, s1, between) ==> (meets < met <==> retry.now >= first.value))
  {
    var s := Run(cfg, Start(clock), before);
    TicketsStayDistinct(cfg, Start(clock), before);
    TicketsAfterStep(cfg, s, refused);
    SweepMet(cfg, s, refused, met);
    UnexpiredIs(s.tickets, refused.now);
    NoneExpired(Unexpired(s.tickets, refused.now), refused.now);
    RetryMeets(cfg, Next(cfg, s, refused), between, retry, meets);
  }

  lemma RetryMeets(cfg: Config, s: State, between: seq<Step>, retry: Step, meets: nat)
    requires Distinct(s.tickets) && s.tickets != [] && Unexpired(s.tickets, s.clock) == s.tickets
    requires PossibleRun(cfg, s, between) && NoTicketPut(cfg, s, between)
    requires retry.PrepareSweep? && Possible(Run(cfg, s, between), retry) && Met(Next(cfg, Run(cfg, s, between), retry), retry.id, meets)
    ensures var first, seconds := Earliest(s.tickets), RetryAfter(Earliest(s.tickets), s.clock);
      first.Some? && s.clock + 1000 * (seconds - 1) < first.value <= s.clock + 1000 * seconds &&
      (retry.now >= first.value ==> meets < |s.tickets|) &&
      (NoTicketTaken(cfg, s, between) ==> (meets < |s.tickets| <==> retry.now >= first.value))
  {
    var s' := Run(cfg, s, between);
    RunWithoutPut(cfg, s, between);
    TicketsStayDistinct(cfg, s, between);
    SweepMet(cfg, s', retry, meets);
    LaterSweep(cfg, s.tickets, s.clock, s'.tickets, retry.now);
    if NoTicketTaken(cfg, s, between) && retry.now < Earliest(s.tickets).value {
      NothingExpired(s, s', retry.now);
    }
  }

  lemma NothingExpired(s: State, s': State, later: int)
    requires Distinct(s.tickets) && Distinct(s'.tickets) && s'.clock <= later
    requires s.tickets != [] && Earliest(s.tickets).Some? && later < Earliest(s.tickets).value
    requires (forall x | x in s'.tickets :: x in s.tickets) && KeepsLive(s'.tickets, s.tickets, s'.clock)
    ensures |Unexpired(s'.tickets, later)| == |s.tickets|
  {
    EarliestIs(s.tickets);
    UnexpiredIs(s'.tickets, later);
    SameEntries(Unexpired(s'.tickets, later), s.tickets);
  }

  lemma {:induction false} NoneExpired(m: JsMap<Text, Pending>, now: int)
    requires forall x | x in m :: !Lapsed(x.value, now)
    ensures Unexpired(m, now) == m
  {
    if m != [] {
      assert m[0] in m && m == [m[0]] + m[1..];
      NoneExpired(m[1..], now);
    }
  }

  lemma ZeroCapIssuesNothingNext(cfg: Config, s: State, step: Step)
    requires cfg.maxPendingConfirmations == 0
    ensures Next(cfg, s, step).issued == s.issued
  {
  }

  /** A cap of zero refuses every prepare for good: no ticket is ever issued. */
  lemma {:induction false} ZeroCapIssuesNothing(cfg: Config, s: State, steps: seq<Step>)
    requires cfg.maxPendingConfirmations == 0
    ensures Run(cfg, s, steps).issued == s.issued
    decreases |steps|
  {
    if steps != [] {
      ZeroCapIssuesNothingNext(cfg, s, steps[0]);
      ZeroCapIssuesNothing(cfg, Next(cfg, s, steps[0]), steps[1..]);
    }
  }
}
