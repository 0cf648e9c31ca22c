/** What the operations do to the cache, and that the flushes bring it to the file. */
module FileStoreProgress {
  import opened Texts
  import opened FileStores
  import opened FileStoreProofs

  function KeyOf<V>(op: Op<V>): Text {
    match op
    case Put(k, _) => k
    case Remove(k) => k
  }

  /** For each key the last operation on it decides. */
  lemma {:induction false} LastOperationDecides<V(!new)>(m: map<Text, V>, ops: seq<Op<V>>, i: nat, k: Text)
    requires forall j | i <= j < |ops| :: KeyOf(ops[j]) != k
    requires i <= |ops| && (i > 0 ==> KeyOf(ops[i - 1]) == k)
    ensures var before := if i == 0 then (if k in m then Some(m[k]) else None)
        else if ops[i - 1].Put? then Some(ops[i - 1].value) else None;
      if before.Some? then k in Apply(m, ops) && Apply(m, ops)[k] == before.value else k !in Apply(m, ops)
    decreases |ops|
  {
    if i < |ops| {
      LastOperationDecides(m, ops[..|ops| - 1], i, k);
    }
  }

  /** A whole flush that succeeds. */
  function FlushSteps<V>(): seq<Step<V>> {
    [BeginFlush, WriteAll, Rename]
  }

  function Flushes<V>(n: nat): seq<Step<V>> {
    if n == 0 then [] else FlushSteps() + Flushes(n - 1)
  }

  lemma {:induction false} RunConcat<V(!new)>(s: State<V>, a: seq<Step<V>>, b: seq<Step<V>>)
    ensures Run(s, a + b) == Run(Run(s, a), b)
    decreases |a|
  {
    if a == [] {
      assert a + b == b;
    } else {
      assert (a + b)[1..] == a[1..] + b;
      RunConcat(Next(s, a[0]), a[1..], b);
    }
  }

  /** One flush brings the cache to the file and resolves the first promise that waits. */
  lemma OneFlush<V(!new)>(s: State<V>)
    requires !s.broken && s.flushing.None? && s.done < |s.chain|
    ensures Run(s, FlushSteps()) == s.(
      file := Some(s.cache), temp := None, durable := |s.ops|, resolved := s.resolved + {s.chain[s.done]}, done := s.done + 1)
  {
    var steps: seq<Step<V>> := FlushSteps();
    var s1 := Next(s, steps[0]);
    var s2 := Next(s1, steps[1]);
    var s3 := Next(s2, steps[2]);
    assert steps[1..] == [WriteAll, Rename] && steps[1..][1..] == [Rename] && steps[1..][1..][1..] == [];
    assert Run(s, steps) == Run(s1, steps[1..]) == Run(s2, steps[1..][1..]) == Run(s3, []) == s3;
  }

  /**
   Once as many flushes have succeeded as changes wait, the file is the cache and every promise has
   resolved.
   */
  lemma {:induction false} FlushesSettle<V(!new)>(s: State<V>, n: nat)
    requires !s.broken && s.flushing.None? && s.done + n == |s.chain|
    ensures var t := Run(s, Flushes(n));
      t.ops == s.ops && t.cache == s.cache && t.done == |t.chain| && !t.broken && t.flushing.None? &&
      (n > 0 ==> t.file == Some(s.cache)) && s.resolved <= t.resolved && forall i | s.done <= i < |s.chain| :: s.chain[i] in t.resolved
    decreases n
  {
    if n > 0 {
      OneFlush(s);
      RunConcat(s, FlushSteps(), Flushes(n - 1));
      FlushesSettle(Run(s, FlushSteps()), n - 1);
    }
  }

  /** So after any history without a failure a change that is flushed is in the file, under its key, with its value. */
  lemma FlushedPutIsOnFile<V(!new)>(file: Option<map<Text, V>>, temp: Option<map<Text, V>>, steps: seq<Step<V>>, k: Text, v: V)
    requires var s := Run(Start(file, temp), steps); !s.broken && s.flushing.None?
    ensures var s := Run(Start(file, temp), steps);
      var n := |s.chain| + 1 - s.done;
      n >= 0 &&
      var t := Run(Next(s, Change(Put(k, v))), Flushes(n));
      t.file == Some(s.cache[k := v]) && |s.ops| in t.resolved
  {
    var s := Run(Start(file, temp), steps);
    StartIsSound(file, temp);
    RunKeepsSound(Start(file, temp), steps);
    var changed := Next(s, Change(Put(k, v)));
    FlushesSettle(changed, |changed.chain| - changed.done);
    assert changed.chain[|s.chain|] == |s.ops|;
  }

  /** A removal that is flushed has no entry in the file, and the other entries are those of the cache. */
  lemma FlushedRemovalIsOnFile<V(!new)>(file: Option<map<Text, V>>, temp: Option<map<Text, V>>, steps: seq<Step<V>>, k: Text)
    requires var s := Run(Start(file, temp), steps); !s.broken && s.flushing.None? && k in s.cache
    ensures var s := Run(Start(file, temp), steps);
      var n := |s.chain| + 1 - s.done;
      n >= 0 &&
      var t := Run(Next(s, Change(Remove(k))), Flushes(n));
      t.file == Some(map x | x in s.cache && x != k :: s.cache[x]) && |s.ops| in t.resolved
  {
    var s := Run(Start(file, temp), steps);
    StartIsSound(file, temp);
    RunKeepsSound(Start(file, temp), steps);
    var changed := Next(s, Change(Remove(k)));
    FlushesSettle(changed, |changed.chain| - changed.done);
    assert changed.chain[|s.chain|] == |s.ops|;
    assert changed.cache == map x | x in s.cache && x != k :: s.cache[x];
  }

  /** Once a flush fails the file stays as it was and no promise of a change that waits resolves, whatever follows. */
  lemma FailedFlushIsFinal<V(!new)>(file: Option<map<Text, V>>, temp: Option<map<Text, V>>, before: seq<Step<V>>, after: seq<Step<V>>)
    requires Run(Start(file, temp), before).flushing.Some?
    ensures var s := Run(Start(file, temp), before);
      var t := Run(Next(s, Fail), after);
      t.file == s.file && t.done == s.done
  {
    var s := Run(Start(file, temp), before);
    StartIsSound(file, temp);
    RunKeepsSound(Start(file, temp), before);
    NextKeepsSound(s, Fail);
    FailureIsFinal(Next(s, Fail), after);
  }
}
