/** Crash consistency of the file-backed stores. */
module FileStoreProofs {
  import opened Texts
  import opened FileStores

  /** Operation i was a removal that found nothing to remove. */
  predicate Idle<V>(s: State<V>, i: nat)
    requires i < |s.ops|
  {
    NothingToRemove(Apply(s.initial, s.ops[..i]), s.ops[i])
  }

  ghost predicate FlushSound<V>(s: State<V>, f: Flush<V>) {
    s.durable <= f.taken <= |s.ops| && f.payload == Apply(s.initial, s.ops[..f.taken]) &&
    s.done < |s.chain| && s.chain[s.done] < f.taken && (f.written ==> s.temp == Some(f.payload))
  }

  ghost predicate Sound<V(!new)>(s: State<V>) {
    s.cache == Apply(s.initial, s.ops) &&
    s.durable <= |s.ops| && Loaded(s.file) == Apply(s.initial, s.ops[..s.durable]) &&
    s.done <= |s.chain| && (forall j | 0 <= j < |s.chain| :: s.chain[j] < |s.ops|) &&
    (forall j | 0 <= j < s.done :: s.chain[j] < s.durable) &&
    (s.flushing.Some? ==> FlushSound(s, s.flushing.value)) &&
    (forall i | i in s.resolved :: i < |s.ops| && (i < s.durable || Idle(s, i))) &&
    (forall i: nat | i < |s.ops| :: Idle(s, i) || i in s.chain)
  }

  lemma ApplySnoc<V(!new)>(m: map<Text, V>, ops: seq<Op<V>>, op: Op<V>)
    ensures Apply(m, ops + [op]) == ApplyOne(Apply(m, ops), op)
  {
    assert (ops + [op])[..|ops|] == ops;
  }

  lemma ChangeKeepsSound<V(!new)>(s: State<V>, op: Op<V>)
    requires Sound(s)
    ensures Sound(Next(s, Change(op)))
  {
    var s' := Next(s, Change(op));
    var n := |s.ops|;
    ApplySnoc(s.initial, s.ops, op);
    assert s'.ops[..n] == s.ops && s.ops[..n] == s.ops;
    assert s'.ops[..s.durable] == s.ops[..s.durable];
    if s.flushing.Some? {
      assert s'.ops[..s.flushing.value.taken] == s.ops[..s.flushing.value.taken];
    }
    forall i: nat | i < n ensures Idle(s', i) == Idle(s, i) {
      assert s'.ops[..i] == s.ops[..i];
    }
    assert s'.chain != s.chain ==> s'.chain[|s.chain|] == n;
  }

  lemma NextKeepsSound<V(!new)>(s: State<V>, step: Step<V>)
    requires Sound(s)
    ensures Sound(Next(s, step))
  {
    match step
    case Change(op) => ChangeKeepsSound(s, op);
    case BeginFlush => assert s.ops[..|s.ops|] == s.ops;
    case _ => SettlingKeepsSound(s, step);
  }

  lemma NextMovesOn<V(!new)>(s: State<V>, step: Step<V>)
    requires Sound(s)
    ensures s.durable <= Next(s, step).durable && s.ops <= Next(s, step).ops
    ensures s.broken && s.flushing.None? ==>
      Next(s, step).file == s.file && Next(s, step).done == s.done && Next(s, step).broken && Next(s, step).flushing.None?
  {
  }

  lemma SettlingKeepsSound<V(!new)>(s: State<V>, step: Step<V>)
    requires Sound(s) && !step.Change? && !step.BeginFlush?
    ensures Sound(Next(s, step))
  {
    var s' := Next(s, step);
    forall i: nat | i < |s.ops| ensures Idle(s', i) == Idle(s, i) {
    }
  }

  lemma {:induction false} RunKeepsSound<V(!new)>(s: State<V>, steps: seq<Step<V>>)
    requires Sound(s)
    ensures Sound(Run(s, steps)) && s.durable <= Run(s, steps).durable && s.ops <= Run(s, steps).ops
    decreases |steps|
  {
    if steps != [] {
      NextKeepsSound(s, steps[0]);
      NextMovesOn(s, steps[0]);
      RunKeepsSound(Next(s, steps[0]), steps[1..]);
    }
  }

  lemma {:induction false} RunInitial<V(!new)>(s: State<V>, steps: seq<Step<V>>)
    ensures Run(s, steps).initial == s.initial
    decreases |steps|
  {
    if steps != [] {
      RunInitial(Next(s, steps[0]), steps[1..]);
    }
  }

  lemma StartIsSound<V(!new)>(file: Option<map<Text, V>>, temp: Option<map<Text, V>>)
    ensures Sound(Start(file, temp))
  {
    assert Start(file, temp).ops[..0] == [];
  }

  /**
   At every point of a run, so wherever it crashes, and whatever temporary file an earlier crash
   left, the file holds the initial pins after some prefix of the operations; the prefix never
   shrinks; and it includes every operation whose promise has resolved, except removals that found
   nothing to remove.
   */
  lemma FileHoldsPrefix<V(!new)>(file: Option<map<Text, V>>, temp: Option<map<Text, V>>, steps: seq<Step<V>>, more: seq<Step<V>>,
                                 i: nat)
    ensures var s, t := Run(Start(file, temp), steps), Run(Run(Start(file, temp), steps), more);
      s.durable <= |s.ops| && Loaded(s.file) == Apply(Loaded(file), s.ops[..s.durable]) && s.durable <= t.durable && s.ops <= t.ops &&
      (i in s.resolved ==> i < |s.ops| && (i < s.durable || Idle(s, i)))
  {
    StartIsSound(file, temp);
    RunKeepsSound(Start(file, temp), steps);
    RunInitial(Start(file, temp), steps);
    RunKeepsSound(Run(Start(file, temp), steps), more);
  }

  /** A pin store never removes, so every resolved operation is in the file. */
  lemma ResolvedPutsAreDurable<V(!new)>(file: Option<map<Text, V>>, temp: Option<map<Text, V>>, steps: seq<Step<V>>, i: nat)
    requires var s := Run(Start(file, temp), steps); i in s.resolved && i < |s.ops| && s.ops[i].Put?
    ensures i < Run(Start(file, temp), steps).durable
  {
    FileHoldsPrefix(file, temp, steps, [], i);
  }

  lemma {:induction false} IdleTail<V(!new)>(s: State<V>, n: nat)
    requires n <= |s.ops| && forall i: nat | n <= i < |s.ops| :: Idle(s, i)
    ensures Apply(s.initial, s.ops) == Apply(s.initial, s.ops[..n])
    decreases |s.ops| - n
  {
    if n < |s.ops| {
      assert Idle(s, n);
      assert s.ops[..n + 1] == s.ops[..n] + [s.ops[n]];
      ApplySnoc(s.initial, s.ops[..n], s.ops[n]);
      assert Apply(s.initial, s.ops[..n + 1]) == Apply(s.initial, s.ops[..n]);
      IdleTail(s, n + 1);
    } else {
      assert s.ops[..n] == s.ops;
    }
  }

  /** When every flush of the chain has completed, the file equals the cache. */
  lemma SettledFileIsCache<V(!new)>(file: Option<map<Text, V>>, temp: Option<map<Text, V>>, steps: seq<Step<V>>)
    requires var s := Run(Start(file, temp), steps); s.done == |s.chain|
    ensures var s := Run(Start(file, temp), steps); Loaded(s.file) == s.cache
  {
    var s := Run(Start(file, temp), steps);
    FileHoldsPrefix(file, temp, steps, [], 0);
    StartIsSound(file, temp);
    RunKeepsSound(Start(file, temp), steps);
    assert forall i | i in s.chain :: i < s.durable;
    IdleTail(s, s.durable);
  }

  /** After a failed flush the file never changes again, and no later flush completes. */
  lemma {:induction false} FailureIsFinal<V(!new)>(s: State<V>, steps: seq<Step<V>>)
    requires Sound(s) && s.broken && s.flushing.None?
    ensures Run(s, steps).file == s.file && Run(s, steps).done == s.done
    decreases |steps|
  {
    if steps != [] {
      NextKeepsSound(s, steps[0]);
      NextMovesOn(s, steps[0]);
      FailureIsFinal(Next(s, steps[0]), steps[1..]);
    }
  }

  // ----- Operations that resolve too early -----

  /** Every operation whose promise has resolved is in the file. */
  predicate ResolvedAreDurable<V>(s: State<V>) {
    forall i | i in s.resolved :: i < s.durable
  }

  /** The same at every point of a run. */
  predicate AlwaysDurable<V>(s: State<V>, steps: seq<Step<V>>)
    decreases |steps|
  {
    ResolvedAreDurable(s) && (steps != [] ==> AlwaysDurable(Next(s, steps[0]), steps[1..]))
  }

  /** Some removal of the run finds nothing in the cache. */
  predicate RemovesNothing<V>(s: State<V>, steps: seq<Step<V>>)
    decreases |steps|
  {
    steps != [] &&
    ((steps[0].Change? && NothingToRemove(s.cache, steps[0].op)) || RemovesNothing(Next(s, steps[0]), steps[1..]))
  }

  lemma NextResolvedDurableExactly<V(!new)>(s: State<V>, step: Step<V>)
    requires Sound(s) && ResolvedAreDurable(s)
    ensures ResolvedAreDurable(Next(s, step)) <==> !(step.Change? && NothingToRemove(s.cache, step.op))
  {
    var s' := Next(s, step);
    NextMovesOn(s, step);
    if step.Change? && NothingToRemove(s.cache, step.op) {
      assert |s.ops| in s'.resolved;
    }
  }

  /**
   From a state that keeps it, and so from every start: at every point of a run all resolved
   operations are in the file exactly when no removal of the run finds nothing to remove.
   */
  lemma {:induction false} AlwaysDurableExactly<V(!new)>(s: State<V>, steps: seq<Step<V>>)
    requires Sound(s) && ResolvedAreDurable(s)
    ensures AlwaysDurable(s, steps) <==> !RemovesNothing(s, steps)
    decreases |steps|
  {
    if steps != [] {
      NextResolvedDurableExactly(s, steps[0]);
      NextKeepsSound(s, steps[0]);
      if ResolvedAreDurable(Next(s, steps[0])) {
        AlwaysDurableExactly(Next(s, steps[0]), steps[1..]);
      }
    }
  }

  lemma DurableFromTheStart<V(!new)>(file: Option<map<Text, V>>, temp: Option<map<Text, V>>, steps: seq<Step<V>>)
    ensures AlwaysDurable(Start(file, temp), steps) <==> !RemovesNothing(Start(file, temp), steps)
  {
    StartIsSound(file, temp);
    AlwaysDurableExactly(Start(file, temp), steps);
  }

  /** Removals that found nothing resolve at once. */
  ghost predicate IdleAreResolved<V(!new)>(s: State<V>) {
    forall i: nat | i < |s.ops| && Idle(s, i) :: i in s.resolved
  }

  lemma IdleStaysIdle<V(!new)>(s: State<V>, step: Step<V>, i: nat)
    requires i < |s.ops|
    ensures |s.ops| <= |Next(s, step).ops| && (Idle(Next(s, step), i) <==> Idle(s, i))
  {
    var s' := Next(s, step);
    assert s'.ops[..i] == s.ops[..i];
  }

  lemma NextKeepsIdleResolved<V(!new)>(s: State<V>, step: Step<V>)
    requires Sound(s) && IdleAreResolved(s)
    ensures IdleAreResolved(Next(s, step))
  {
    var s' := Next(s, step);
    forall i: nat | i < |s'.ops| && Idle(s', i) ensures i in s'.resolved {
      if i < |s.ops| {
        IdleStaysIdle(s, step, i);
      } else {
        assert s'.ops[..i] == s.ops;
      }
    }
  }

  lemma {:induction false} RunKeepsIdleResolved<V(!new)>(s: State<V>, steps: seq<Step<V>>)
    requires Sound(s) && IdleAreResolved(s)
    ensures IdleAreResolved(Run(s, steps))
    decreases |steps|
  {
    if steps != [] {
      NextKeepsSound(s, steps[0]);
      NextKeepsIdleResolved(s, steps[0]);
      RunKeepsIdleResolved(Next(s, steps[0]), steps[1..]);
    }
  }

  /** Operation by operation: one that is not in the file yet has resolved exactly when it was a removal that found nothing. */
  lemma ResolvedEarlyExactly<V(!new)>(file: Option<map<Text, V>>, temp: Option<map<Text, V>>, steps: seq<Step<V>>, i: nat)
    requires var s := Run(Start(file, temp), steps); s.durable <= i < |s.ops|
    ensures var s := Run(Start(file, temp), steps); i in s.resolved <==> Idle(s, i)
  {
    FileHoldsPrefix(file, temp, steps, [], i);
    StartIsSound(file, temp);
    RunKeepsIdleResolved(Start(file, temp), steps);
  }

  // ----- Crashes and restarts -----

  /** Runs one after the other, each of which ends in a crash: only the two files are left for the next. */
  function Restarts<V>(file: Option<map<Text, V>>, temp: Option<map<Text, V>>, runs: seq<seq<Step<V>>>): Option<map<Text, V>>
    decreases |runs|
  {
    if runs == [] then file
    else var s := Run(Start(file, temp), runs[0]); Restarts(s.file, s.temp, runs[1..])
  }

  /** The operations of these runs that had reached the file when their run crashed. */
  ghost function Survivors<V(!new)>(file: Option<map<Text, V>>, temp: Option<map<Text, V>>, runs: seq<seq<Step<V>>>): seq<Op<V>>
    decreases |runs|
  {
    if runs == [] then []
    else
      var s := Run(Start(file, temp), runs[0]);
      StartIsSound(file, temp);
      RunKeepsSound(Start(file, temp), runs[0]);
      s.ops[..s.durable] + Survivors(s.file, s.temp, runs[1..])
  }

  lemma {:induction false} ApplyConcat<V(!new)>(m: map<Text, V>, a: seq<Op<V>>, b: seq<Op<V>>)
    ensures Apply(m, a + b) == Apply(Apply(m, a), b)
    decreases |b|
  {
    if b == [] {
      assert a + b == a;
    } else {
      var front, last := b[..|b| - 1], b[|b| - 1];
      assert a + b == (a + front) + [last];
      ApplySnoc(m, a + front, last);
      ApplyConcat(m, a, front);
    }
  }

  /** Over any number of crashes and restarts, each crash loses at most a suffix of the operations of its run. */
  lemma {:induction false} CrashesLoseOnlySuffixes<V(!new)>(file: Option<map<Text, V>>, temp: Option<map<Text, V>>, runs: seq<seq<Step<V>>>)
    ensures Loaded(Restarts(file, temp, runs)) == Apply(Loaded(file), Survivors(file, temp, runs))
    decreases |runs|
  {
    if runs != [] {
      var s := Run(Start(file, temp), runs[0]);
      FileHoldsPrefix(file, temp, runs[0], [], 0);
      CrashesLoseOnlySuffixes(s.file, s.temp, runs[1..]);
      ApplyConcat(Loaded(file), s.ops[..s.durable], Survivors(s.file, s.temp, runs[1..]));
    }
  }

  /** The exception is real: a second removal of the same name resolves before the first one has reached the file. */
  lemma RepeatedRemovalResolvesEarly<V(!new)>(key: Text, value: V)
    ensures var s := Run(Start(Some(map[key := value]), None), [Change(Remove(key)), Change(Remove(key))]);
      1 in s.resolved && s.durable == 0 && key in Loaded(s.file)
  {
    var s0 := Start(Some(map[key := value]), None);
    var a: Step<V>, b: Step<V> := Change(Remove(key)), Change(Remove(key));
    var s1 := Next(s0, a);
    assert [a, b][1..] == [b] && [b][1..] == [];
    assert s1.cache == map[key := value] - {key} == map[];
    assert Run(s0, [a, b]) == Run(s1, [b]) == Run(Next(s1, b), []) == Next(s1, b);
    assert 1 in Next(s1, b).resolved;
  }
}
