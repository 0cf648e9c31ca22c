/** The server's in-memory stores of confirmation tickets and of recorded responses. */
module Stores {
  import opened Texts
  import opened JsMaps

  // ----- Confirmation tickets -----

  datatype Pending = Pending(glyphName: Text, inputHash: Text, expiresAt: int)

  predicate Lapsed(p: Pending, now: int) { now >= p.expiresAt }

  /** What is left of the tickets after a full sweep. */
  function Unexpired(m: JsMap<Text, Pending>, now: int): JsMap<Text, Pending> {
    if m == [] then []
    else if Lapsed(m[0].value, now) then Unexpired(m[1..], now)
    else [m[0]] + Unexpired(m[1..], now)
  }

  /** The earliest expiry among tickets. */
  function Earliest(m: JsMap<Text, Pending>): Option<int> {
    if m == [] then None
    else match Earliest(m[..|m| - 1])
      case None => Some(m[|m| - 1].value.expiresAt)
      case Some(e) => Some(if m[|m| - 1].value.expiresAt < e then m[|m| - 1].value.expiresAt else e)
  }

  lemma {:induction false} UnexpiredIs(m: JsMap<Text, Pending>, now: int)
    requires Distinct(m)
    ensures Distinct(Unexpired(m, now)) && |Unexpired(m, now)| <= |m|
    ensures forall x :: x in Unexpired(m, now) <==> x in m && now < x.value.expiresAt
    ensures (exists x :: x in m && now >= x.value.expiresAt) ==> |Unexpired(m, now)| < |m|
  {
    if m != [] {
      DistinctTail(m);
      UnexpiredIs(m[1..], now);
      if !Lapsed(m[0].value, now) {
        DistinctCons(m[0], Unexpired(m[1..], now));
      }
    }
  }

  lemma {:induction false} UnexpiredSnoc(m: JsMap<Text, Pending>, x: Item<Text, Pending>, now: int)
    ensures Unexpired(m + [x], now) == Unexpired(m, now) + if Lapsed(x.value, now) then [] else [x]
  {
    if m == [] {
      assert [x][1..] == [];
    } else {
      UnexpiredSnoc(m[1..], x, now);
      assert (m + [x])[1..] == m[1..] + [x];
    }
  }

  lemma {:induction false} EarliestIs(m: JsMap<Text, Pending>)
    ensures Earliest(m).None? <==> m == []
    ensures Earliest(m).Some? ==> exists x :: x in m && x.value.expiresAt == Earliest(m).value
    ensures forall x | x in m :: Earliest(m).value <= x.value.expiresAt
  {
    if m != [] {
      var front, last := m[..|m| - 1], m[|m| - 1];
      EarliestIs(front);
      assert m == front + [last];
      if Earliest(front).Some? {
        var x :| x in front && x.value.expiresAt == Earliest(front).value;
        assert x in m;
      }
    }
  }

  class MemoryConfirmationStore {
    var entries: JsMap<Text, Pending>

    constructor ()
      ensures entries == []
    {
      entries := [];
    }

    method Issue(token: Text, entry: Pending)
      modifies this
      ensures entries == Put(old(entries), token, entry)
    {
      entries := Put(entries, token, entry);
    }

    /** Fetches and removes a ticket in one step. */
    method Consume(token: Text) returns (entry: Option<Pending>)
      modifies this
      ensures entry == Get(old(entries), token)
      ensures entries == Delete(old(entries), token)
    {
      entry := Get(entries, token);
      DeleteAbsent(entries, token);
      if entry.Some? {
        entries := Delete(entries, token);
      }
    }

    method SweepAll(now: int) returns (size: nat, earliest: Option<int>)
      modifies this
      ensures entries == Unexpired(old(entries), now)
      ensures size == |entries| && earliest == Earliest(entries)
    {
      earliest := None;
      var i := 0;
      while i < |entries|
        invariant 0 <= i <= |entries|
        invariant entries[..i] + Unexpired(entries[i..], now) == Unexpired(old(entries), now)
        invariant earliest == Earliest(entries[..i])
        decreases |entries| - i
      {
        ghost var before := entries;
        assert before[i..] == [before[i]] + before[i + 1..];
        var entry := entries[i].value;
        if now >= entry.expiresAt {
          entries := entries[..i] + entries[i + 1..];
          assert entries[..i] == before[..i] && entries[i..] == before[i + 1..];
        } else {
          if earliest.None? || entry.expiresAt < earliest.value {
            earliest := Some(entry.expiresAt);
          }
          i := i + 1;
          assert before[..i] == before[..i - 1] + [before[i - 1]];
          assert entries[..i][..|entries[..i]| - 1] == before[..i - 1];
        }
      }
      assert entries[..i] == entries && entries[i..] == [];
      size := |entries|;
    }
  }

  lemma {:induction false} DeleteAbsent(m: JsMap<Text, Pending>, k: Text)
    ensures Get(m, k).None? ==> Delete(m, k) == m
  {
    if m != [] {
      DeleteAbsent(m[1..], k);
    }
  }

  // ----- Recorded responses -----

  datatype Recorded<R> = Recorded(response: R, expiresAt: int)

  /** At most this many expired responses are swept per put. */
  const DEDUPE_BATCH: nat := 100

  function StaleAt<R>(now: int): Recorded<R> -> bool {
    (r: Recorded<R>) => now >= r.expiresAt
  }

  /** `get`: the recorded response, unless it expired, in which case it is dropped. */
  function Recall<R>(m: JsMap<Text, Recorded<R>>, key: Text, now: int): (JsMap<Text, Recorded<R>>, Option<R>) {
    match Get(m, key)
    case None => (m, None)
    case Some(r) => if now >= r.expiresAt then (Delete(m, key), None) else (m, Some(r.response))
  }

  /** `put`: sweeps a batch, then records. */
  function Remember<R>(m: JsMap<Text, Recorded<R>>, key: Text, response: R, ttlMs: int, now: int): JsMap<Text, Recorded<R>> {
    Put(Sweep(m, StaleAt(now), DEDUPE_BATCH), key, Recorded(response, now + ttlMs))
  }

  class MemoryDedupeStore<R> {
    var entries: JsMap<Text, Recorded<R>>

    constructor ()
      ensures entries == []
    {
      entries := [];
    }

    method Recover(key: Text, now: int) returns (response: Option<R>)
      modifies this
      ensures (entries, response) == Recall(old(entries), key, now)
    {
      var entry := Get(entries, key);
      if entry.None? {
        return None;
      }
      if now >= entry.value.expiresAt {
        entries := Delete(entries, key);
        return None;
      }
      return Some(entry.value.response);
    }

    method Keep(key: Text, response: R, ttlMs: int, now: int)
      modifies this
      ensures entries == Remember(old(entries), key, response, ttlMs, now)
    {
      SweepBatch(now);
      entries := Put(entries, key, Recorded(response, now + ttlMs));
    }

    method SweepBatch(now: int)
      modifies this
      ensures entries == Sweep(old(entries), StaleAt(now), DEDUPE_BATCH)
    {
      var i, swept := 0, 0;
      while i < |entries|
        invariant 0 <= i <= |entries| && swept < DEDUPE_BATCH
        invariant entries[..i] + Sweep(entries[i..], StaleAt(now), DEDUPE_BATCH - swept) == Sweep(old(entries), StaleAt(now), DEDUPE_BATCH)
        decreases |entries| - i
      {
        SweepRound(entries, i, StaleAt(now), DEDUPE_BATCH - swept);
        if now >= entries[i].value.expiresAt {
          entries := entries[..i] + entries[i + 1..];
          swept := swept + 1;
          if swept >= DEDUPE_BATCH {
            assert entries == entries[..i] + entries[i..];
            return;
          }
        } else {
          i := i + 1;
        }
      }
      assert entries[..i] + entries[i..] == entries;
    }
  }

  /** Recording a response removes no other response that is still live, and no live one is forgotten by a lookup. */
  lemma LiveResponsesSurvive<R(!new)>(m: JsMap<Text, Recorded<R>>, key: Text, response: R, ttlMs: int, now: int,
                                      x: Item<Text, Recorded<R>>)
    requires Distinct(m) && x in m && now < x.value.expiresAt
    ensures x.key != key ==> x in Remember(m, key, response, ttlMs, now)
    ensures x in Recall(m, key, now).0
    ensures Distinct(Remember(m, key, response, ttlMs, now)) && Distinct(Recall(m, key, now).0)
  {
    SweepIs(m, StaleAt(now), DEDUPE_BATCH);
    PutIs(Sweep(m, StaleAt(now), DEDUPE_BATCH), key, Recorded(response, now + ttlMs));
    GetIs(m, key);
    GetIs(m, x.key);
    DeleteIs(m, key);
  }

  /** A lookup finds the response exactly while it is live, drops it once it is not, and leaves every other key alone. */
  lemma RecallIs<R(!new)>(m: JsMap<Text, Recorded<R>>, key: Text, now: int, k: Text)
    requires Distinct(m)
    ensures var (left, found) := Recall(m, key, now);
      var entry := Get(m, key);
      (if entry.Some? && now < entry.value.expiresAt
       then found == Some(entry.value.response) && left == m
       else found == None && Get(left, key) == None) &&
      (k != key ==> Get(left, k) == Get(m, k))
  {
    var left := Recall(m, key, now).0;
    DeleteIs(m, key);
    GetIs(m, key);
    GetIs(Delete(m, key), key);
    if k != key { OtherKept(m, key, k); }
  }

  lemma {:induction false} OtherKept<V>(m: JsMap<Text, V>, key: Text, k: Text)
    requires k != key
    ensures Get(Delete(m, key), k) == Get(m, k)
  {
    if m != [] {
      OtherKept(m[1..], key, k);
    }
  }

  /** A put adds one entry at most, and takes a hundred expired ones away first, or all of them if they are fewer. */
  lemma RememberSweepsAHundred<R(!new)>(m: JsMap<Text, Recorded<R>>, key: Text, response: R, ttlMs: int, now: int)
    requires Distinct(m) && forall x | x in m :: x.key != key
    ensures var stale := Lapses(m, (r: Recorded<R>) => now >= r.expiresAt);
      |Remember(m, key, response, ttlMs, now)| == |m| + 1 - if stale < 100 then stale else 100
  {
    var swept := Sweep(m, StaleAt(now), DEDUPE_BATCH);
    SameLapses(m, StaleAt(now), (r: Recorded<R>) => now >= r.expiresAt);
    SweepDeletes(m, StaleAt(now), DEDUPE_BATCH);
    SweepIs(m, StaleAt(now), DEDUPE_BATCH);
    GetIs(swept, key);
    PutIs(swept, key, Recorded(response, now + ttlMs));
  }

  /** After a put the key holds the new response, and every other live response is still there. */
  lemma RememberIs<R(!new)>(m: JsMap<Text, Recorded<R>>, key: Text, response: R, ttlMs: int, now: int)
    requires Distinct(m)
    ensures var put := Remember(m, key, response, ttlMs, now);
      Distinct(put) && Get(put, key) == Some(Recorded(response, now + ttlMs)) &&
      (forall x | x in put :: x == Item(key, Recorded(response, now + ttlMs)) || x in m) &&
      (forall k | k != key && Get(m, k).Some? && now < Get(m, k).value.expiresAt :: Get(put, k) == Get(m, k))
  {
    var put := Remember(m, key, response, ttlMs, now);
    SweepIs(m, StaleAt(now), DEDUPE_BATCH);
    PutIs(Sweep(m, StaleAt(now), DEDUPE_BATCH), key, Recorded(response, now + ttlMs));
    GetIs(put, key);
    forall k | k != key && Get(m, k).Some? && now < Get(m, k).value.expiresAt ensures Get(put, k) == Get(m, k) {
      GetIs(m, k);
      LiveResponsesSurvive(m, key, response, ttlMs, now, Item(k, Get(m, k).value));
      GetIs(put, k);
    }
  }

  // ----- The key of a recorded response -----

  const SEPARATOR: Unit := 58

  /** The three parts, joined by colons. */
  function DedupeKey(name: Text, callId: Text, inputHash: Text): Text {
    name + [SEPARATOR] + callId + [SEPARATOR] + inputHash
  }

  function After(t: Text): Text {
    if t == [] || t[|t| - 1] == SEPARATOR then [] else After(t[..|t| - 1]) + [t[|t| - 1]]
  }

  lemma {:induction false} AfterSeparator(rest: Text, a: Text)
    requires SEPARATOR !in a
    ensures After(rest + [SEPARATOR] + a) == a
  {
    var t := rest + [SEPARATOR] + a;
    if a == [] {
      assert t[|t| - 1] == SEPARATOR;
    } else {
      AfterSeparator(rest, a[..|a| - 1]);
      assert t[..|t| - 1] == rest + [SEPARATOR] + a[..|a| - 1];
      assert a == a[..|a| - 1] + [a[|a| - 1]];
    }
  }

  /** Neither name, followed by ':', begins the other. */
  predicate NamesApart(n: Text, m: Text) {
    !(n + [SEPARATOR] <= m) && !(m + [SEPARATOR] <= n)
  }

  lemma BeginsLonger(n: Text, m: Text, k: Text)
    requires n + [SEPARATOR] <= k && m + [SEPARATOR] <= k
    ensures |n| < |m| ==> n + [SEPARATOR] <= m
  {
    if |n| < |m| {
      assert n + [SEPARATOR] == k[..|n| + 1] && m == k[..|m|];
    }
  }

  /** Keys of glyphs whose names are apart determine the name, the call id and the input hash. */
  lemma DedupeKeyInjective(n1: Text, c1: Text, h1: Text, n2: Text, c2: Text, h2: Text)
    requires NamesApart(n1, n2) && SEPARATOR !in h1 && SEPARATOR !in h2
    requires DedupeKey(n1, c1, h1) == DedupeKey(n2, c2, h2)
    ensures n1 == n2 && c1 == c2 && h1 == h2
  {
    var k := DedupeKey(n1, c1, h1);
    assert n1 + [SEPARATOR] <= k && n2 + [SEPARATOR] <= k;
    BeginsLonger(n1, n2, k);
    BeginsLonger(n2, n1, k);
    assert n1 == k[..|n1|] && n2 == k[..|n2|];
    assert k == (n1 + [SEPARATOR] + c1) + [SEPARATOR] + h1 == (n2 + [SEPARATOR] + c2) + [SEPARATOR] + h2;
    AfterSeparator(n1 + [SEPARATOR] + c1, h1);
    AfterSeparator(n2 + [SEPARATOR] + c2, h2);
    assert c1 == k[|n1| + 1..|k| - |h1| - 1] == c2;
  }

  /** Two glyphs can share a key exactly when one name, followed by ':', begins the other. */
  lemma SharedKeysExactly(n: Text, m: Text)
    requires n != m
    ensures !NamesApart(n, m) <==>
      exists c, d, h :: c != [] && d != [] && SEPARATOR !in h && DedupeKey(n, c, h) == DedupeKey(m, d, h)
  {
    if n + [SEPARATOR] <= m {
      SharedKey(n, m);
    } else if m + [SEPARATOR] <= n {
      SharedKey(m, n);
    }
    if c, d, h :| NamesApart(n, m) && SEPARATOR !in h && DedupeKey(n, c, h) == DedupeKey(m, d, h) {
      DedupeKeyInjective(n, c, h, m, d, h);
    }
  }

  lemma SharedKey(n: Text, m: Text)
    requires n + [SEPARATOR] <= m
    ensures exists c, d, h :: c != [] && d != [] && SEPARATOR !in h && DedupeKey(n, c, h) == DedupeKey(m, d, h)
  {
    var rest, d, h: Text := m[|n| + 1..], [SEPARATOR], [];
    var c := rest + [SEPARATOR] + d;
    assert m == n + [SEPARATOR] + rest;
    assert DedupeKey(n, c, h) == DedupeKey(m, d, h);
  }
}
