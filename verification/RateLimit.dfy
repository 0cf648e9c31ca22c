/** The fixed-window rate limiter: its store, with the batched sweep, and the decision made on its counts. */
module RateLimit {
  import opened Texts
  import opened JsMaps

  datatype Window = Window(count: nat, resetAt: int)

  /** At most this many expired entries are swept per hit. */
  const BATCH: nat := 100

  predicate Expired(w: Window, now: int) { now >= w.resetAt }

  function ExpiredAt(now: int): Window -> bool {
    (w: Window) => Expired(w, now)
  }

  /** One hit: sweep a batch, open a window if the key has none that is live, and count. */
  function Hit(m: JsMap<Text, Window>, key: Text, windowMs: int, now: int): (JsMap<Text, Window>, Window) {
    var swept := Sweep(m, ExpiredAt(now), BATCH);
    var found := Get(swept, key);
    var entry := if found.None? || Expired(found.value, now) then Window(0, now + windowMs) else found.value;
    var counted := entry.(count := entry.count + 1);
    (Put(swept, key, counted), counted)
  }

  class MemoryRateLimitStore {
    var hits: JsMap<Text, Window>

    constructor ()
      ensures hits == []
    {
      hits := [];
    }

    method SweepBatch(now: int)
      modifies this
      ensures hits == Sweep(old(hits), ExpiredAt(now), BATCH)
    {
      var i, swept := 0, 0;
      while i < |hits|
        invariant 0 <= i <= |hits| && swept < BATCH
        invariant hits[..i] + Sweep(hits[i..], ExpiredAt(now), BATCH - swept) == Sweep(old(hits), ExpiredAt(now), BATCH)
        decreases |hits| - i
      {
        SweepRound(hits, i, ExpiredAt(now), BATCH - swept);
        if now >= hits[i].value.resetAt {
          hits := hits[..i] + hits[i + 1..];
          swept := swept + 1;
          if swept >= BATCH {
            assert hits == hits[..i] + hits[i..];
            return;
          }
        } else {
          i := i + 1;
        }
      }
      assert hits[..i] + hits[i..] == hits;
    }

    method Record(key: Text, windowMs: int, now: int) returns (count: nat, resetAt: int)
      modifies this
      ensures (hits, Window(count, resetAt)) == Hit(old(hits), key, windowMs, now)
    {
      SweepBatch(now);
      var entry := Get(hits, key);
      if entry.None? || now >= entry.value.resetAt {
        entry := Some(Window(0, now + windowMs));
      }
      count, resetAt := entry.value.count + 1, entry.value.resetAt;
      hits := Put(hits, key, Window(count, resetAt));
    }
  }

  // ----- What a hit should return: the window a key is in, from its arrival times alone -----

  /** The window of the last of a key's arrival times. */
  function LastWindow(ts: seq<int>, windowMs: int): Window
    requires ts != []
  {
    var earlier, now := ts[..|ts| - 1], ts[|ts| - 1];
    if earlier == [] || now >= LastWindow(earlier, windowMs).resetAt then Window(1, now + windowMs)
    else LastWindow(earlier, windowMs).(count := LastWindow(earlier, windowMs).count + 1)
  }

  predicate Nondecreasing(ts: seq<int>) {
    forall i, j :: 0 <= i < j < |ts| ==> ts[i] <= ts[j]
  }

  /**
   The count is the number of arrivals since the window opened: the last `count` arrivals lie
   within one window length of the first of them, and the arrival before them is not in the window.
   */
  lemma {:induction false} CountIsHitsSinceOpening(ts: seq<int>, windowMs: int)
    requires ts != [] && Nondecreasing(ts) && windowMs >= 1
    ensures var w := LastWindow(ts, windowMs);
      var first := |ts| - w.count;
      0 <= first < |ts| && w.resetAt == ts[first] + windowMs &&
      (forall i :: first <= i < |ts| ==> ts[first] <= ts[i] < w.resetAt) &&
      (first > 0 ==> ts[first] >= LastWindow(ts[..first], windowMs).resetAt)
    decreases |ts|
  {
    var earlier := ts[..|ts| - 1];
    if earlier != [] {
      CountIsHitsSinceOpening(earlier, windowMs);
      var w := LastWindow(earlier, windowMs);
      var first := |earlier| - w.count;
      assert earlier[..first] == ts[..first];
      assert earlier[first] == ts[first];
    }
  }

  // ----- The swept store refines it -----

  datatype Arrival = Arrival(key: Text, at: int)

  function Times(h: seq<Arrival>, key: Text): seq<int> {
    if h == [] then []
    else Times(h[..|h| - 1], key) + if h[|h| - 1].key == key then [h[|h| - 1].at] else []
  }

  predicate InOrder(h: seq<Arrival>) {
    forall i, j :: 0 <= i < j < |h| ==> h[i].at <= h[j].at
  }

  /** The store after a history of hits, and the answer to the last of them. */
  function Store(h: seq<Arrival>, windowMs: int): JsMap<Text, Window> {
    if h == [] then []
    else Hit(Store(h[..|h| - 1], windowMs), h[|h| - 1].key, windowMs, h[|h| - 1].at).0
  }

  function Answer(h: seq<Arrival>, windowMs: int): Window
    requires h != []
  {
    Hit(Store(h[..|h| - 1], windowMs), h[|h| - 1].key, windowMs, h[|h| - 1].at).1
  }

  /** Every stored entry is its key's last window, and every window still live at `now` is stored. */
  ghost predicate Represents(m: JsMap<Text, Window>, h: seq<Arrival>, windowMs: int, now: int) {
    Distinct(m) &&
    (forall x | x in m :: Times(h, x.key) != [] && x.value == LastWindow(Times(h, x.key), windowMs)) &&
    (forall k | Times(h, k) != [] && !Expired(LastWindow(Times(h, k), windowMs), now) ::
      Item(k, LastWindow(Times(h, k), windowMs)) in m)
  }

  lemma SweptRepresents(m: JsMap<Text, Window>, h: seq<Arrival>, windowMs: int, earlier: int, now: int)
    requires Represents(m, h, windowMs, earlier) && earlier <= now
    ensures Represents(Sweep(m, ExpiredAt(now), BATCH), h, windowMs, now)
  {
    SweepIs(m, ExpiredAt(now), BATCH);
  }

  lemma TimesSnoc(h: seq<Arrival>, a: Arrival, k: Text)
    ensures Times(h + [a], k) == Times(h, k) + if a.key == k then [a.at] else []
  {
    assert (h + [a])[..|h|] == h;
  }

  /** What the store holds for the key of a hit is its live window, or one that expired. */
  lemma HitAnswers(m: JsMap<Text, Window>, h: seq<Arrival>, windowMs: int, a: Arrival)
    requires Represents(m, h, windowMs, a.at)
    ensures var found, ts := Get(m, a.key), Times(h, a.key);
      LastWindow(ts + [a.at], windowMs) ==
        if found.None? || a.at >= found.value.resetAt then Window(1, a.at + windowMs) else found.value.(count := found.value.count + 1)
  {
    GetIs(m, a.key);
    var found, ts := Get(m, a.key), Times(h, a.key);
    assert (ts + [a.at])[..|ts|] == ts;
    if found.Some? {
      assert Item(a.key, found.value) in m;
    }
  }

  /** `g` is the history `h` followed by one more hit of `key`. */
  ghost predicate Extends(h: seq<Arrival>, g: seq<Arrival>, key: Text, at: int) {
    (forall k | k != key :: Times(g, k) == Times(h, k)) && Times(g, key) == Times(h, key) + [at]
  }

  lemma PutRepresents(m: JsMap<Text, Window>, h: seq<Arrival>, g: seq<Arrival>, windowMs: int, a: Arrival)
    requires Represents(m, h, windowMs, a.at) && Extends(h, g, a.key, a.at)
    ensures Represents(Put(m, a.key, LastWindow(Times(g, a.key), windowMs)), g, windowMs, a.at)
  {
    var w := LastWindow(Times(g, a.key), windowMs);
    var m' := Put(m, a.key, w);
    PutIs(m, a.key, w);
    forall x | x in m' ensures Times(g, x.key) != [] && x.value == LastWindow(Times(g, x.key), windowMs) {
    }
    forall k | Times(g, k) != [] && !Expired(LastWindow(Times(g, k), windowMs), a.at)
      ensures Item(k, LastWindow(Times(g, k), windowMs)) in m'
    {
    }
  }

  lemma HitRepresents(m: JsMap<Text, Window>, h: seq<Arrival>, windowMs: int, earlier: int, a: Arrival)
    requires Represents(m, h, windowMs, earlier) && earlier <= a.at
    ensures var (m', w) := Hit(m, a.key, windowMs, a.at);
      w == LastWindow(Times(h + [a], a.key), windowMs) && Represents(m', h + [a], windowMs, a.at)
  {
    var swept := Sweep(m, ExpiredAt(a.at), BATCH);
    SweptRepresents(m, h, windowMs, earlier, a.at);
    HitAnswers(swept, h, windowMs, a);
    forall k ensures Times(h + [a], k) == Times(h, k) + if a.key == k then [a.at] else [] {
      TimesSnoc(h, a, k);
    }
    PutRepresents(swept, h, h + [a], windowMs, a);
  }

  lemma {:induction false} StoreRepresents(h: seq<Arrival>, windowMs: int)
    requires h != [] && InOrder(h)
    ensures Represents(Store(h, windowMs), h, windowMs, h[|h| - 1].at)
    ensures Answer(h, windowMs) == LastWindow(Times(h, h[|h| - 1].key), windowMs)
    decreases |h|
  {
    var earlier, a := h[..|h| - 1], h[|h| - 1];
    assert h == earlier + [a];
    if earlier == [] {
      HitRepresents([], [], windowMs, a.at, a);
    } else {
      StoreRepresents(earlier, windowMs);
      HitRepresents(Store(earlier, windowMs), earlier, windowMs, earlier[|earlier| - 1].at, a);
    }
  }

  /** A hit on a new key adds one window, and takes a hundred closed ones away first, or all of them if they are fewer. */
  lemma HitSweepsAHundred(m: JsMap<Text, Window>, key: Text, windowMs: int, now: int)
    requires Distinct(m) && forall x | x in m :: x.key != key
    ensures var closed := Lapses(m, (w: Window) => now >= w.resetAt);
      |Hit(m, key, windowMs, now).0| == |m| + 1 - if closed < 100 then closed else 100
  {
    var swept := Sweep(m, ExpiredAt(now), BATCH);
    SameLapses(m, ExpiredAt(now), (w: Window) => now >= w.resetAt);
    SweepDeletes(m, ExpiredAt(now), BATCH);
    SweepIs(m, ExpiredAt(now), BATCH);
    GetIs(swept, key);
    PutIs(swept, key, Hit(m, key, windowMs, now).1);
  }

  // ----- The limiter's decision -----

  /** The source's `rateLimitMiddleware`: a request is served when its count is within the limit. */
  predicate Admits(w: Window, max: int) { w.count <= max }

  /** Whole seconds, rounded up, until the window ends. */
  function RetryAfter(w: Window, now: int): int {
    (w.resetAt - now + 999) / 1000
  }

  /** Serves the request (None), or refuses it with the Retry-After seconds. */
  method Limit(store: MemoryRateLimitStore, key: Text, windowMs: int, max: int, now: int) returns (retryAfter: Option<int>)
    modifies store
    ensures store.hits == Hit(old(store.hits), key, windowMs, now).0
    ensures var w := Hit(old(store.hits), key, windowMs, now).1;
      retryAfter == if Admits(w, max) then None else Some(RetryAfter(w, now))
  {
    var count, resetAt := store.Record(key, windowMs, now);
    if count > max {
      return Some((resetAt - now + 999) / 1000);
    }
    return None;
  }

  /** A rejected client that waits the advertised time finds its window closed; one that waits a second less does not. */
  lemma RetryAfterSuffices(w: Window, now: int, later: int)
    ensures later >= now + 1000 * RetryAfter(w, now) ==> Expired(w, later)
    ensures later <= now + 1000 * (RetryAfter(w, now) - 1) ==> !Expired(w, later)
  {
  }

  /** How many of a key's arrivals in [from, until) are admitted. */
  function AdmittedWithin(ts: seq<int>, windowMs: int, max: int, from: int, until: int): nat {
    if ts == [] then 0
    else
      AdmittedWithin(ts[..|ts| - 1], windowMs, max, from, until)
      + if from <= ts[|ts| - 1] < until && Admits(LastWindow(ts, windowMs), max) then 1 else 0
  }

  function Min(a: int, b: int): int { if a < b then a else b }

  lemma {:induction false} NothingAdmittedBefore(ts: seq<int>, windowMs: int, max: int, from: int, until: int)
    requires forall i :: 0 <= i < |ts| ==> ts[i] < from
    ensures AdmittedWithin(ts, windowMs, max, from, until) == 0
  {
    if ts != [] {
      NothingAdmittedBefore(ts[..|ts| - 1], windowMs, max, from, until);
    }
  }

  /**
   In any half-open interval of one window length, a key has at most 2 * max - 1 requests admitted:
   the interval meets at most two windows, and the hit that opened the first of them precedes it.
   */
  lemma {:induction false} AdmittedBound(ts: seq<int>, windowMs: int, max: int, from: int)
    requires ts != [] && Nondecreasing(ts) && windowMs >= 1 && max >= 1
    ensures var n := AdmittedWithin(ts, windowMs, max, from, from + windowMs);
      var w := LastWindow(ts, windowMs);
      var start := w.resetAt - windowMs;
      start <= ts[|ts| - 1] < w.resetAt && w.count >= 1 &&
      n <= 2 * max - 1 &&
      (start < from ==> n <= Min(w.count, max) - 1) &&
      (start == from ==> n <= Min(w.count, max)) &&
      (from < start < from + windowMs ==> n <= max - 1 + Min(w.count, max))
    decreases |ts|
  {
    var earlier, now := ts[..|ts| - 1], ts[|ts| - 1];
    if earlier == [] {
      assert AdmittedWithin(earlier, windowMs, max, from, from + windowMs) == 0;
    } else {
      AdmittedBound(earlier, windowMs, max, from);
      var w := LastWindow(earlier, windowMs);
      if now >= w.resetAt && now <= from {
        NothingAdmittedBefore(earlier, windowMs, max, from, from + windowMs);
      }
    }
  }

  /** With a limit below one, nothing is ever admitted. */
  lemma {:induction false} NothingAdmittedWithoutLimit(ts: seq<int>, windowMs: int, max: int, from: int, until: int)
    requires max < 1
    ensures AdmittedWithin(ts, windowMs, max, from, until) == 0
  {
    if ts != [] {
      NothingAdmittedWithoutLimit(ts[..|ts| - 1], windowMs, max, from, until);
    }
  }

  /** A window of one millisecond holds arrivals of one instant only. */
  lemma {:induction false} AdmittedAtOneInstant(ts: seq<int>, max: int, from: int)
    requires ts != [] && Nondecreasing(ts) && max >= 1
    ensures var n := AdmittedWithin(ts, 1, max, from, from + 1);
      var w := LastWindow(ts, 1);
      w.resetAt == ts[|ts| - 1] + 1 && w.count >= 1 && n <= max &&
      (ts[|ts| - 1] < from ==> n == 0) && (ts[|ts| - 1] == from ==> n <= Min(w.count, max))
    decreases |ts|
  {
    var earlier := ts[..|ts| - 1];
    if earlier == [] {
      assert AdmittedWithin(earlier, 1, max, from, from + 1) == 0;
    } else {
      AdmittedAtOneInstant(earlier, max, from);
    }
  }

  /** An interval that lasts no time holds no arrival. */
  lemma {:induction false} NothingAdmittedInNoTime(ts: seq<int>, windowMs: int, max: int, from: int, until: int)
    requires until <= from
    ensures AdmittedWithin(ts, windowMs, max, from, until) == 0
  {
    if ts != [] {
      NothingAdmittedInNoTime(ts[..|ts| - 1], windowMs, max, from, until);
    }
  }

  /** The most requests of one key that are admitted within one window length. */
  function MostAdmitted(windowMs: int, max: int): nat {
    if max < 1 || windowMs < 1 then 0 else if windowMs == 1 then max else 2 * max - 1
  }

  /** The burst bound of the whole limiter, for every key and every history of hits. */
  lemma BurstBound(h: seq<Arrival>, key: Text, windowMs: int, max: int, from: int)
    requires InOrder(h)
    ensures AdmittedWithin(Times(h, key), windowMs, max, from, from + windowMs) <= MostAdmitted(windowMs, max)
  {
    TimesInOrder(h, key);
    if max < 1 {
      NothingAdmittedWithoutLimit(Times(h, key), windowMs, max, from, from + windowMs);
    } else if windowMs < 1 {
      NothingAdmittedInNoTime(Times(h, key), windowMs, max, from, from + windowMs);
    } else if Times(h, key) != [] {
      AdmittedBound(Times(h, key), windowMs, max, from);
      if windowMs == 1 { AdmittedAtOneInstant(Times(h, key), max, from); }
    }
  }

  lemma {:induction false} TimesInOrder(h: seq<Arrival>, key: Text)
    requires InOrder(h)
    ensures Nondecreasing(Times(h, key))
    ensures h != [] ==> forall i :: 0 <= i < |Times(h, key)| ==> Times(h, key)[i] <= h[|h| - 1].at
  {
    if h != [] {
      TimesInOrder(h[..|h| - 1], key);
    }
  }

  /**
   The bound is reached for every limit and window: one hit, max - 1 hits at the end of its window,
   max hits in the next one; or, where a window is one millisecond, max hits at one instant.
   */
  lemma BurstBoundIsTight(windowMs: int, max: int) returns (ts: seq<int>, from: int)
    ensures Nondecreasing(ts) && AdmittedWithin(ts, windowMs, max, from, from + windowMs) == MostAdmitted(windowMs, max)
  {
    if max < 1 || windowMs < 1 {
      ts, from := [], 0;
    } else if windowMs == 1 {
      ts, from := Repeat([0], 0, max - 1), 0;
      OneInstantFilled(max);
    } else {
      var filled := Repeat([0], windowMs - 1, max - 1);
      ts, from := Repeat(filled, windowMs, max), windowMs - 1;
      FirstWindowFilled(windowMs, max, from, from + windowMs);
      FullNextWindow(filled, windowMs, max, from, from + windowMs, windowMs);
    }
  }

  lemma OneInstantFilled(max: int)
    requires max >= 1
    ensures var ts := Repeat([0], 0, max - 1); Nondecreasing(ts) && AdmittedWithin(ts, 1, max, 0, 1) == max
  {
    assert [0][..0] == [];
    assert LastWindow([0], 1) == Window(1, 1) && AdmittedWithin([0], 1, max, 0, 1) == 1;
    RepeatInWindow([0], 1, max, 0, 1, 0, max - 1);
  }

  lemma FirstWindowFilled(windowMs: int, max: int, from: int, until: int)
    requires windowMs >= 2 && max >= 1 && from == windowMs - 1 && until == 2 * windowMs - 1
    ensures var ts := Repeat([0], windowMs - 1, max - 1);
      ts != [] && Nondecreasing(ts) && ts[|ts| - 1] <= windowMs - 1 &&
      LastWindow(ts, windowMs).resetAt == windowMs && AdmittedWithin(ts, windowMs, max, from, until) == max - 1
  {
    FirstArrival(windowMs, max, from, until);
    RepeatInWindow([0], windowMs, max, from, until, windowMs - 1, max - 1);
  }

  /** After its window has closed, a key has `max` further arrivals admitted at once. */
  lemma FullNextWindow(ts: seq<int>, windowMs: int, max: int, from: int, until: int, t: int)
    requires ts != [] && Nondecreasing(ts) && ts[|ts| - 1] <= t && LastWindow(ts, windowMs).resetAt <= t
    requires from <= t < until && max >= 1 && windowMs >= 1
    ensures Nondecreasing(Repeat(ts, t, max))
    ensures AdmittedWithin(Repeat(ts, t, max), windowMs, max, from, until) == AdmittedWithin(ts, windowMs, max, from, until) + max
  {
    NewWindow(ts, windowMs, max, from, until, t);
    RepeatInWindow(ts + [t], windowMs, max, from, until, t, max - 1);
    RepeatCons(ts, t, max);
  }

  lemma FirstArrival(windowMs: int, max: int, from: int, until: int)
    requires from > 0
    ensures LastWindow([0], windowMs) == Window(1, windowMs) && AdmittedWithin([0], windowMs, max, from, until) == 0
  {
    assert [0][..0] == [];
  }

  /** An admitted arrival that opens a new window. */
  lemma NewWindow(ts: seq<int>, windowMs: int, max: int, from: int, until: int, t: int)
    requires ts != [] && Nondecreasing(ts) && ts[|ts| - 1] <= t && LastWindow(ts, windowMs).resetAt <= t
    requires from <= t < until && max >= 1
    ensures Nondecreasing(ts + [t]) && LastWindow(ts + [t], windowMs) == Window(1, t + windowMs)
    ensures AdmittedWithin(ts + [t], windowMs, max, from, until) == AdmittedWithin(ts, windowMs, max, from, until) + 1
  {
    var all := ts + [t];
    assert all[..|all| - 1] == ts && all[|all| - 1] == t;
    forall i, j | 0 <= i < j < |all| ensures all[i] <= all[j] {
      assert i < |ts| - 1 ==> ts[i] <= ts[|ts| - 1];
    }
  }

  function Repeat(ts: seq<int>, t: int, n: nat): seq<int> {
    if n == 0 then ts else Repeat(ts, t, n - 1) + [t]
  }

  lemma {:induction false} RepeatCons(ts: seq<int>, t: int, n: nat)
    requires n >= 1
    ensures Repeat(ts, t, n) == Repeat(ts + [t], t, n - 1)
  {
    if n > 1 {
      RepeatCons(ts, t, n - 1);
    }
  }

  /** One more admitted arrival in the last window. */
  lemma OneMore(ts: seq<int>, windowMs: int, max: int, from: int, until: int, t: int)
    requires ts != [] && Nondecreasing(ts) && ts[|ts| - 1] <= t < LastWindow(ts, windowMs).resetAt
    requires from <= t < until && LastWindow(ts, windowMs).count < max
    ensures Nondecreasing(ts + [t])
    ensures var w := LastWindow(ts, windowMs);
      LastWindow(ts + [t], windowMs) == w.(count := w.count + 1)
    ensures AdmittedWithin(ts + [t], windowMs, max, from, until) == AdmittedWithin(ts, windowMs, max, from, until) + 1
  {
    var all := ts + [t];
    assert all[..|all| - 1] == ts && all[|all| - 1] == t;
    forall i, j | 0 <= i < j < |all| ensures all[i] <= all[j] {
      assert i < |ts| - 1 ==> ts[i] <= ts[|ts| - 1];
    }
  }

  lemma {:induction false} RepeatInWindow(ts: seq<int>, windowMs: int, max: int, from: int, until: int, t: int, n: nat)
    requires ts != [] && Nondecreasing(ts) && ts[|ts| - 1] <= t < LastWindow(ts, windowMs).resetAt
    requires from <= t < until && LastWindow(ts, windowMs).count + n <= max
    ensures var all := Repeat(ts, t, n);
      all != [] && Nondecreasing(all) && all[|all| - 1] <= t &&
      LastWindow(all, windowMs) == Window(LastWindow(ts, windowMs).count + n, LastWindow(ts, windowMs).resetAt) &&
      AdmittedWithin(all, windowMs, max, from, until) == AdmittedWithin(ts, windowMs, max, from, until) + n
  {
    if n > 0 {
      RepeatInWindow(ts, windowMs, max, from, until, t, n - 1);
      OneMore(Repeat(ts, t, n - 1), windowMs, max, from, until, t);
    }
  }

  // ----- The size of the store -----

  function KeysOf(h: seq<Arrival>): set<Text> {
    set a | a in h :: a.key
  }

  /** The keys whose window is live at `now`. */
  function LiveKeys(h: seq<Arrival>, windowMs: int, now: int): set<Text> {
    set k | k in KeysOf(h) && Times(h, k) != [] && !Expired(LastWindow(Times(h, k), windowMs), now)
  }

  /** The most windows that were ever live at one time, counted at each hit. */
  function Peak(h: seq<Arrival>, windowMs: int): nat {
    if h == [] then 0
    else
      var earlier := Peak(h[..|h| - 1], windowMs);
      var live := |LiveKeys(h, windowMs, h[|h| - 1].at)|;
      if earlier > live then earlier else live
  }

  lemma {:induction false} TimesOfKey(h: seq<Arrival>, k: Text)
    ensures Times(h, k) != [] <==> k in KeysOf(h)
  {
    if h != [] {
      TimesOfKey(h[..|h| - 1], k);
      assert h == h[..|h| - 1] + [h[|h| - 1]];
    }
  }

  /** Although a hit sweeps at most a batch, the store never outgrows the peak of live windows. */
  lemma {:induction false} StoreWithinPeak(h: seq<Arrival>, windowMs: int)
    requires InOrder(h) && windowMs >= 1
    ensures |Store(h, windowMs)| <= Peak(h, windowMs)
    decreases |h|
  {
    if h != [] {
      var earlier, a := h[..|h| - 1], h[|h| - 1];
      StoreWithinPeak(earlier, windowMs);
      StoreRepresents(h, windowMs);
      if earlier != [] { StoreRepresents(earlier, windowMs); }
      var m, m' := Store(earlier, windowMs), Store(h, windowMs);
      var swept := Sweep(m, ExpiredAt(a.at), BATCH);
      var w := Answer(h, windowMs);
      SweepIs(m, ExpiredAt(a.at), BATCH);
      PutIs(swept, a.key, w);
      if |m'| > |m| {
        forall k | k in Keys(m') ensures k in LiveKeys(h, windowMs, a.at) {
          var x :| x in m' && x.key == k;
          TimesOfKey(h, k);
          if x in swept {
            assert !ExpiredAt(a.at)(x.value);
          }
        }
        SizeIsKeys(m');
        SubsetSize(Keys(m'), LiveKeys(h, windowMs, a.at));
      }
    }
  }
}
