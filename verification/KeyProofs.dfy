/** What every sequence of rotations and revocations keeps, from a genesis registry on. */
module KeyProofs {
  import opened Texts
  import opened Crypto
  import opened KeyRegistries

  // ----- Unique fingerprints -----

  predicate UniqueFingerprints(keys: seq<KeyEntry>) {
    forall i, j :: 0 <= i < j < |keys| ==> keys[i].fingerprint != keys[j].fingerprint
  }

  lemma {:induction false} FirstIs(keys: seq<KeyEntry>, i: nat)
    requires UniqueFingerprints(keys) && i < |keys|
    ensures FirstEntry(keys, keys[i].fingerprint) == Some(keys[i])
  {
    if i > 0 {
      assert keys[0].fingerprint != keys[i].fingerprint;
      FirstIs(keys[1..], i - 1);
    }
  }

  lemma {:induction false} FirstNone(keys: seq<KeyEntry>, f: Text)
    ensures FirstEntry(keys, f).None? <==> forall i | 0 <= i < |keys| :: keys[i].fingerprint != f
  {
    if keys != [] {
      FirstNone(keys[1..], f);
      if FirstEntry(keys[1..], f).Some? {
        var i :| 0 <= i < |keys[1..]| && keys[1..][i].fingerprint == f;
        assert keys[i + 1].fingerprint == f;
      }
    }
  }

  lemma {:induction false} LastIs(keys: seq<KeyEntry>, i: nat)
    requires UniqueFingerprints(keys) && i < |keys|
    ensures ByFingerprint(keys, keys[i].fingerprint) == Some(keys[i])
    decreases |keys|
  {
    if i < |keys| - 1 {
      assert keys[i].fingerprint != keys[|keys| - 1].fingerprint;
      LastIs(keys[..|keys| - 1], i);
    }
  }

  // ----- The shape of a registry -----

  /** Each entry after the first was signed by the one before it. */
  predicate SignedByPredecessor(keys: seq<KeyEntry>) {
    forall i | 0 <= i < |keys| :: HasParent(keys, i)
  }

  predicate HasParent(keys: seq<KeyEntry>, i: nat)
    requires i < |keys|
  {
    keys[i].signedBy == (if i == 0 then None else Some(keys[i - 1].fingerprint)) && keys[i].fingerprint != []
  }

  /** Every entry but the last is retired; the last one is live, and named active. */
  predicate OneLive(r: Registry) {
    r.keys != [] && (forall i | 0 <= i < |r.keys| - 1 :: Truthy(r.keys[i].validUntil)) &&
    LiveEntry(r.keys[|r.keys| - 1]) && r.active == r.keys[|r.keys| - 1].fingerprint
  }

  /** No date of an entry lies after the registry was issued. */
  predicate DatedBefore(d: Dates, e: KeyEntry, issued: int) {
    d.parse(e.validFrom) <= issued && (Truthy(e.validUntil) ==> d.parse(e.validUntil.value) <= issued) &&
    (Truthy(e.revokedAt) ==> d.parse(e.revokedAt.value) <= issued)
  }

  /** What a registry needs besides its signatures. */
  predicate WellShaped(d: Dates, r: Registry) {
    UniqueFingerprints(r.keys) && SignedByPredecessor(r.keys) && OneLive(r) &&
    forall i | 0 <= i < |r.keys| :: DatedBefore(d, r.keys[i], d.parse(r.issuedAt))
  }

  predicate Sound(c: Suite, d: Dates, r: Registry) {
    Verified(c, r) && WellShaped(d, r)
  }

  /** Digests never print as ''. */
  ghost predicate DigestsPrint(c: Suite) {
    forall m :: c.sha(m) != []
  }

  lemma GenesisIsSound(c: Suite, d: Dates, serverId: Text, privateKey: Text, now: int, issued: int)
    requires SignaturesVerify(c) && DatesRoundTrip(d) && DigestsPrint(c) && now <= issued
    ensures Sound(c, d, Genesis(c, d, serverId, privateKey, now, issued))
  {
    var r := Genesis(c, d, serverId, privateKey, now, issued);
    var base := r.(signature := []);
    assert RegistrySigningPayload(c, r) == RegistrySigningPayload(c, base);
    assert d.parse(d.iso(now)) == now && d.parse(d.iso(issued)) == issued;
    LastIs(r.keys, 0);
    assert c.verify(c.publicKeyOf(privateKey), RegistrySigningPayload(c, base), r.signature);
  }

  // ----- A command keeps the shape -----

  /** Time moves on, and a new key pair is new. */
  predicate Possible(c: Suite, d: Dates, r: Registry, command: Command) {
    d.parse(r.issuedAt) <= command.now <= command.issued &&
    (command.Rotate? ==> forall i | 0 <= i < |r.keys| :: r.keys[i].fingerprint != FingerprintKey(c, c.publicKeyOf(command.newKey)))
  }

  /** Same keys and parents; entries may have been retired or revoked at `now`. */
  ghost predicate Marked(d: Dates, keys: seq<KeyEntry>, marked: seq<KeyEntry>, now: int) {
    |marked| == |keys| && forall i | 0 <= i < |keys| :: MarkedEntry(d, keys[i], marked[i], now)
  }

  predicate MarkedEntry(d: Dates, e: KeyEntry, f: KeyEntry, now: int) {
    f == e.(validUntil := f.validUntil, revokedAt := f.revokedAt, revocationReason := f.revocationReason) &&
    (f.validUntil == e.validUntil || f.validUntil == Some(d.iso(now))) && (f.revokedAt == e.revokedAt || f.revokedAt == Some(d.iso(now)))
  }

  lemma MarkingKeepsShape(d: Dates, keys: seq<KeyEntry>, marked: seq<KeyEntry>, before: int, now: int, issued: int)
    requires DatesRoundTrip(d) && Marked(d, keys, marked, now) && before <= now <= issued
    requires UniqueFingerprints(keys) && SignedByPredecessor(keys) && forall i | 0 <= i < |keys| :: DatedBefore(d, keys[i], before)
    ensures UniqueFingerprints(marked) && SignedByPredecessor(marked) && forall i | 0 <= i < |keys| :: DatedBefore(d, marked[i], issued)
  {
    assert d.parse(d.iso(now)) == now && d.iso(now) != [];
    forall i | 0 <= i < |marked| ensures DatedBefore(d, marked[i], issued) {
      assert MarkedEntry(d, keys[i], marked[i], now) && DatedBefore(d, keys[i], before);
    }
    forall i | 0 <= i < |marked|
      ensures marked[i].fingerprint == keys[i].fingerprint && marked[i].signedBy == keys[i].signedBy
    {
      assert MarkedEntry(d, keys[i], marked[i], now);
    }
    forall i | 0 <= i < |marked| ensures HasParent(marked, i) {
      assert HasParent(keys, i);
    }
  }

  lemma {:induction false} LastLiveIs(keys: seq<KeyEntry>)
    requires keys != [] && LiveEntry(keys[|keys| - 1])
    ensures LastLive(keys) == Some(keys[|keys| - 1])
  {
  }

  function NewEntry(c: Suite, d: Dates, r: Registry, command: Command): KeyEntry
    requires command.Rotate?
  {
    BuildKeyEntry(c, c.publicKeyOf(command.newKey), d.iso(command.now), Some(Parent(r.active, command.previousKey)))
  }

  function RotatedKeys(c: Suite, d: Dates, r: Registry, command: Command): seq<KeyEntry>
    requires command.Rotate?
  {
    Retire(r.keys, r.active, d.iso(command.now)) + [NewEntry(c, d, r, command)]
  }

  lemma NewEntryFits(c: Suite, d: Dates, r: Registry, command: Command, retired: seq<KeyEntry>)
    requires DatesRoundTrip(d) && DigestsPrint(c) && WellShaped(d, r) && Possible(c, d, r, command) && command.Rotate?
    requires Marked(d, r.keys, retired, command.now) && UniqueFingerprints(retired) && SignedByPredecessor(retired)
    ensures var keys := retired + [NewEntry(c, d, r, command)]; UniqueFingerprints(keys) && SignedByPredecessor(keys)
  {
    var e := NewEntry(c, d, r, command);
    var keys, n := retired + [e], |retired|;
    forall i | 0 <= i < n ensures retired[i].fingerprint == r.keys[i].fingerprint {
      assert MarkedEntry(d, r.keys[i], retired[i], command.now);
    }
    forall i | 0 <= i <= n ensures HasParent(keys, i) {
      if i < n { assert HasParent(retired, i); }
    }
  }

  lemma RetiredAll(c: Suite, d: Dates, r: Registry, command: Command)
    requires DatesRoundTrip(d) && WellShaped(d, r) && command.Rotate?
    ensures forall i | 0 <= i < |r.keys| :: Truthy(Retire(r.keys, r.active, d.iso(command.now))[i].validUntil)
  {
    assert d.iso(command.now) != [];
  }

  lemma RotatedShape(c: Suite, d: Dates, r: Registry, command: Command)
    requires DatesRoundTrip(d) && DigestsPrint(c) && WellShaped(d, r) && Possible(c, d, r, command) && command.Rotate?
    ensures var keys := RotatedKeys(c, d, r, command);
      UniqueFingerprints(keys) && SignedByPredecessor(keys) && forall i | 0 <= i < |keys| :: DatedBefore(d, keys[i], command.issued)
  {
    var retired := Retire(r.keys, r.active, d.iso(command.now));
    RetiringMarks(d, r.keys, r.active, command.now);
    MarkingKeepsShape(d, r.keys, retired, d.parse(r.issuedAt), command.now, command.issued);
    NewEntryFits(c, d, r, command, retired);
    assert d.parse(d.iso(command.now)) == command.now;
  }

  lemma RotationProposes(c: Suite, d: Dates, r: Registry, command: Command)
    requires WellShaped(d, r) && command.Rotate?
    ensures Proposed(c, d, r, command) ==
      BuildKeyRegistry(c, d, r.serverId, RotatedKeys(c, d, r, command), command.newKey, command.issued)
    ensures Proposed(c, d, r, command).Some? && Proposed(c, d, r, command).value.active == NewEntry(c, d, r, command).fingerprint
  {
    FirstIs(r.keys, |r.keys| - 1);
    LastLiveIs(RotatedKeys(c, d, r, command));
  }

  lemma RotationKeepsShape(c: Suite, d: Dates, r: Registry, command: Command)
    requires DatesRoundTrip(d) && DigestsPrint(c) && WellShaped(d, r) && Possible(c, d, r, command) && command.Rotate?
    ensures Proposed(c, d, r, command).Some?
    ensures var next := Proposed(c, d, r, command).value;
      WellShaped(d, next) && d.parse(next.issuedAt) == command.issued && next.keys == RotatedKeys(c, d, r, command)
  {
    RotationProposes(c, d, r, command);
    RotatedShape(c, d, r, command);
    RetiredAll(c, d, r, command);
    assert d.parse(d.iso(command.issued)) == command.issued;
  }

  lemma RevokedOneLive(d: Dates, r: Registry, f: Text, now: Text, reason: Option<Text>)
    requires UniqueFingerprints(r.keys) && OneLive(r) && f != r.active
    ensures OneLive(r.(keys := RevokeIn(r.keys, f, now, reason)))
  {
    var keys := RevokeIn(r.keys, f, now, reason);
    assert keys[|keys| - 1] == r.keys[|r.keys| - 1];
  }

  lemma RevocationKeepsShape(c: Suite, d: Dates, r: Registry, command: Command)
    requires DatesRoundTrip(d) && WellShaped(d, r) && Possible(c, d, r, command) && command.Revoke?
    requires Proposed(c, d, r, command).Some?
    ensures var next := Proposed(c, d, r, command).value;
      WellShaped(d, next) && d.parse(next.issuedAt) == command.issued &&
      next.active == r.active && next.keys == RevokeIn(r.keys, command.fingerprint, d.iso(command.now), command.reason)
  {
    var keys := RevokeIn(r.keys, command.fingerprint, d.iso(command.now), command.reason);
    RevokingMarks(d, r.keys, command.fingerprint, command.now, command.reason);
    MarkingKeepsShape(d, r.keys, keys, d.parse(r.issuedAt), command.now, command.issued);
    RevokedOneLive(d, r, command.fingerprint, d.iso(command.now), command.reason);
    LastLiveIs(keys);
    assert d.parse(d.iso(command.issued)) == command.issued;
  }

  lemma NextIsSound(c: Suite, d: Dates, r: Registry, command: Command)
    requires DatesRoundTrip(d) && DigestsPrint(c) && Sound(c, d, r) && Possible(c, d, r, command)
    ensures Sound(c, d, Next(c, d, r, command))
    ensures d.parse(r.issuedAt) <= d.parse(Next(c, d, r, command).issuedAt)
  {
    if Proposed(c, d, r, command).Some? {
      match command
      case Rotate(_, _, _, _) => RotationKeepsShape(c, d, r, command);
      case Revoke(_, _, _, _, _) => RevocationKeepsShape(c, d, r, command);
    }
  }

  predicate PossibleRun(c: Suite, d: Dates, r: Registry, commands: seq<Command>)
    decreases |commands|
  {
    commands != [] ==> Possible(c, d, r, commands[0]) && PossibleRun(c, d, Next(c, d, r, commands[0]), commands[1..])
  }

  function Run(c: Suite, d: Dates, r: Registry, commands: seq<Command>): Registry
    decreases |commands|
  {
    if commands == [] then r else Run(c, d, Next(c, d, r, commands[0]), commands[1..])
  }

  lemma {:induction false} RunIsSound(c: Suite, d: Dates, r: Registry, commands: seq<Command>)
    requires DatesRoundTrip(d) && DigestsPrint(c) && Sound(c, d, r) && PossibleRun(c, d, r, commands)
    ensures Sound(c, d, Run(c, d, r, commands))
    ensures d.parse(r.issuedAt) <= d.parse(Run(c, d, r, commands).issuedAt)
    decreases |commands|
  {
    if commands != [] {
      NextIsSound(c, d, r, commands[0]);
      RunIsSound(c, d, Next(c, d, r, commands[0]), commands[1..]);
    }
  }

  /**
   Whatever keys the operator passes, every registry on file after a genesis verifies, has unique
   fingerprints, exactly one live entry, the last, named active, and each entry signed by its
   predecessor.
   */
  lemma EveryRegistryIsSound(c: Suite, d: Dates, serverId: Text, privateKey: Text, now: int, issued: int, commands: seq<Command>)
    requires SignaturesVerify(c) && DatesRoundTrip(d) && DigestsPrint(c) && now <= issued
    requires PossibleRun(c, d, Genesis(c, d, serverId, privateKey, now, issued), commands)
    ensures Sound(c, d, Run(c, d, Genesis(c, d, serverId, privateKey, now, issued), commands))
  {
    GenesisIsSound(c, d, serverId, privateKey, now, issued);
    RunIsSound(c, d, Genesis(c, d, serverId, privateKey, now, issued), commands);
  }

  // ----- With the right private keys the commands succeed -----

  /** An entry signed by its predecessor is vouched for among entries with the same parents. */
  lemma PredecessorVouches(c: Suite, keys: seq<KeyEntry>, i: nat)
    requires UniqueFingerprints(keys) && SignedByPredecessor(keys) && i < |keys|
    ensures Vouched(c, keys, keys[i]) <==>
      (i > 0 ==> Truthy(keys[i].signature) && c.verify(keys[i - 1].publicKey, EntrySigningPayload(c, keys[i]), keys[i].signature.value))
  {
    assert HasParent(keys, i);
    if i > 0 {
      assert HasParent(keys, i - 1);
      LastIs(keys, i - 1);
    }
  }

  lemma VouchedStays(c: Suite, d: Dates, keys: seq<KeyEntry>, marked: seq<KeyEntry>, now: int, i: nat)
    requires Marked(d, keys, marked, now)
    requires UniqueFingerprints(keys) && SignedByPredecessor(keys) && UniqueFingerprints(marked) && SignedByPredecessor(marked)
    requires i < |keys| && Vouched(c, keys, keys[i])
    ensures Vouched(c, marked, marked[i])
  {
    PredecessorVouches(c, keys, i);
    PredecessorVouches(c, marked, i);
    assert MarkedEntry(d, keys[i], marked[i], now);
    if i > 0 {
      assert MarkedEntry(d, keys[i - 1], marked[i - 1], now);
    }
  }

  /** A registry over sound entries is accepted when its last entry's key signed it. */
  lemma SignedRegistryVerifies(c: Suite, next: Registry, privateKey: Text)
    requires SignaturesVerify(c) && next.registryVersion == VERSION
    requires UniqueFingerprints(next.keys) && next.keys != [] && next.active == next.keys[|next.keys| - 1].fingerprint
    requires !Truthy(next.keys[|next.keys| - 1].revokedAt)
    requires forall i | 0 <= i < |next.keys| :: FingerprintKey(c, next.keys[i].publicKey) == next.keys[i].fingerprint
    requires forall i | 0 <= i < |next.keys| :: Vouched(c, next.keys, next.keys[i])
    requires next.keys[|next.keys| - 1].publicKey == c.publicKeyOf(privateKey)
    requires next.signature == c.sign(privateKey, RegistrySigningPayload(c, next))
    ensures Verified(c, next)
  {
    LastIs(next.keys, |next.keys| - 1);
    assert c.verify(c.publicKeyOf(privateKey), RegistrySigningPayload(c, next), next.signature);
  }

  lemma BuiltIsSigned(c: Suite, d: Dates, serverId: Text, entries: seq<KeyEntry>, privateKey: Text, issued: int)
    requires BuildKeyRegistry(c, d, serverId, entries, privateKey, issued).Some?
    ensures var r := BuildKeyRegistry(c, d, serverId, entries, privateKey, issued).value;
      r.signature == c.sign(privateKey, RegistrySigningPayload(c, r)) && r.keys == entries && r.registryVersion == VERSION
  {
    var r := BuildKeyRegistry(c, d, serverId, entries, privateKey, issued).value;
    assert RegistrySigningPayload(c, r) == RegistrySigningPayload(c, r.(signature := []));
  }

  lemma BuiltVerifies(c: Suite, d: Dates, serverId: Text, entries: seq<KeyEntry>, privateKey: Text, issued: int)
    requires SignaturesVerify(c) && UniqueFingerprints(entries) && entries != [] && LiveEntry(entries[|entries| - 1])
    requires forall i | 0 <= i < |entries| ::
      FingerprintKey(c, entries[i].publicKey) == entries[i].fingerprint && Vouched(c, entries, entries[i])
    requires entries[|entries| - 1].publicKey == c.publicKeyOf(privateKey)
    ensures BuildKeyRegistry(c, d, serverId, entries, privateKey, issued).Some?
    ensures Verified(c, BuildKeyRegistry(c, d, serverId, entries, privateKey, issued).value)
  {
    LastLiveIs(entries);
    BuiltIsSigned(c, d, serverId, entries, privateKey, issued);
    SignedRegistryVerifies(c, BuildKeyRegistry(c, d, serverId, entries, privateKey, issued).value, privateKey);
  }

  lemma NewEntryIsSigned(c: Suite, publicKey: Text, validFrom: Text, parent: Parent)
    requires SignaturesVerify(c)
    ensures var e := BuildKeyEntry(c, publicKey, validFrom, Some(parent));
      Truthy(e.signature) && c.verify(c.publicKeyOf(parent.privateKey), EntrySigningPayload(c, e), e.signature.value)
  {
    var e := BuildKeyEntry(c, publicKey, validFrom, Some(parent));
    var m := EntrySigningPayload(c, e.(signature := None));
    assert EntrySigningPayload(c, e) == m;
    assert c.verify(c.publicKeyOf(parent.privateKey), m, c.sign(parent.privateKey, m)) && c.sign(parent.privateKey, m) != [];
  }

  /** Vouching looks at the entry and its predecessor only. */
  lemma VouchedInLonger(c: Suite, keys: seq<KeyEntry>, e: KeyEntry, i: nat)
    requires UniqueFingerprints(keys + [e]) && SignedByPredecessor(keys + [e]) && i < |keys|
    requires UniqueFingerprints(keys) && SignedByPredecessor(keys) && Vouched(c, keys, keys[i])
    ensures Vouched(c, keys + [e], keys[i])
  {
    PredecessorVouches(c, keys, i);
    PredecessorVouches(c, keys + [e], i);
    assert (keys + [e])[i] == keys[i] && (i > 0 ==> (keys + [e])[i - 1] == keys[i - 1]);
  }

  lemma RotatedEntries(c: Suite, d: Dates, r: Registry, command: Command)
    requires SignaturesVerify(c) && DatesRoundTrip(d) && DigestsPrint(c)
    requires Sound(c, d, r) && Possible(c, d, r, command) && command.Rotate?
    requires c.publicKeyOf(command.previousKey) == r.keys[|r.keys| - 1].publicKey
    ensures var keys := RotatedKeys(c, d, r, command);
      forall i | 0 <= i < |keys| :: FingerprintKey(c, keys[i].publicKey) == keys[i].fingerprint && Vouched(c, keys, keys[i])
  {
    var retired, entry := Retire(r.keys, r.active, d.iso(command.now)), NewEntry(c, d, r, command);
    var keys, n := retired + [entry], |retired|;
    RotatedShape(c, d, r, command);
    RetiringMarks(d, r.keys, r.active, command.now);
    MarkingKeepsShape(d, r.keys, retired, d.parse(r.issuedAt), command.now, command.issued);
    forall i | 0 <= i <= n ensures FingerprintKey(c, keys[i].publicKey) == keys[i].fingerprint && Vouched(c, keys, keys[i]) {
      if i < n {
        assert r.keys[i] in r.keys;
        VouchedStays(c, d, r.keys, retired, command.now, i);
        VouchedInLonger(c, retired, entry, i);
      } else {
        NewEntryIsSigned(c, c.publicKeyOf(command.newKey), d.iso(command.now), Parent(r.active, command.previousKey));
        PredecessorVouches(c, keys, n);
      }
    }
  }

  lemma RetiringMarks(d: Dates, keys: seq<KeyEntry>, f: Text, now: int)
    ensures Marked(d, keys, Retire(keys, f, d.iso(now)), now)
  {
    forall i | 0 <= i < |keys| ensures MarkedEntry(d, keys[i], Retire(keys, f, d.iso(now))[i], now) {
    }
  }

  lemma RevokingMarks(d: Dates, keys: seq<KeyEntry>, f: Text, now: int, reason: Option<Text>)
    ensures Marked(d, keys, RevokeIn(keys, f, d.iso(now), reason), now)
  {
    forall i | 0 <= i < |keys| ensures MarkedEntry(d, keys[i], RevokeIn(keys, f, d.iso(now), reason)[i], now) {
    }
  }

  /** The active private key rotates: the new registry is accepted and names the new key. */
  lemma RightKeyRotates(c: Suite, d: Dates, r: Registry, command: Command)
    requires SignaturesVerify(c) && DatesRoundTrip(d) && DigestsPrint(c)
    requires Sound(c, d, r) && Possible(c, d, r, command) && command.Rotate?
    requires c.publicKeyOf(command.previousKey) == r.keys[|r.keys| - 1].publicKey
    ensures Next(c, d, r, command).active == FingerprintKey(c, c.publicKeyOf(command.newKey))
    ensures |Next(c, d, r, command).keys| == |r.keys| + 1
  {
    RotationKeepsShape(c, d, r, command);
    RotationProposes(c, d, r, command);
    RotatedEntries(c, d, r, command);
    BuiltVerifies(c, d, r.serverId, RotatedKeys(c, d, r, command), command.newKey, command.issued);
  }

  lemma RevokedEntries(c: Suite, d: Dates, r: Registry, f: Text, now: int, reason: Option<Text>)
    requires DatesRoundTrip(d) && Sound(c, d, r) && f != r.active && d.parse(r.issuedAt) <= now
    ensures var keys := RevokeIn(r.keys, f, d.iso(now), reason);
      UniqueFingerprints(keys) && |keys| == |r.keys| && keys[|keys| - 1] == r.keys[|keys| - 1] &&
      forall j | 0 <= j < |keys| :: FingerprintKey(c, keys[j].publicKey) == keys[j].fingerprint && Vouched(c, keys, keys[j])
  {
    var keys := RevokeIn(r.keys, f, d.iso(now), reason);
    RevokingMarks(d, r.keys, f, now, reason);
    MarkingKeepsShape(d, r.keys, keys, d.parse(r.issuedAt), now, now);
    forall j | 0 <= j < |keys| ensures FingerprintKey(c, keys[j].publicKey) == keys[j].fingerprint && Vouched(c, keys, keys[j]) {
      assert r.keys[j] in r.keys;
      VouchedStays(c, d, r.keys, keys, now, j);
    }
  }

  lemma RevocationProposes(c: Suite, d: Dates, r: Registry, command: Command, i: nat)
    requires WellShaped(d, r) && command.Revoke? && i < |r.keys| - 1 && r.keys[i].fingerprint == command.fingerprint
    ensures command.fingerprint != r.active && Proposed(c, d, r, command).Some?
    ensures Proposed(c, d, r, command) == BuildKeyRegistry(c, d, r.serverId,
      RevokeIn(r.keys, command.fingerprint, d.iso(command.now), command.reason), command.activeKey, command.issued)
  {
    FirstIs(r.keys, i);
    assert r.keys[i].fingerprint != r.keys[|r.keys| - 1].fingerprint;
    RevokedOneLive(d, r, command.fingerprint, d.iso(command.now), command.reason);
    LastLiveIs(RevokeIn(r.keys, command.fingerprint, d.iso(command.now), command.reason));
  }

  lemma RevokedVerifies(c: Suite, d: Dates, r: Registry, f: Text, now: int, reason: Option<Text>, activeKey: Text, issued: int)
    requires SignaturesVerify(c) && DatesRoundTrip(d) && Sound(c, d, r) && f != r.active && d.parse(r.issuedAt) <= now
    requires c.publicKeyOf(activeKey) == r.keys[|r.keys| - 1].publicKey
    ensures var built := BuildKeyRegistry(c, d, r.serverId, RevokeIn(r.keys, f, d.iso(now), reason), activeKey, issued);
      built.Some? && Verified(c, built.value)
  {
    RevokedEntries(c, d, r, f, now, reason);
    BuiltVerifies(c, d, r.serverId, RevokeIn(r.keys, f, d.iso(now), reason), activeKey, issued);
  }

  /** The active private key revokes any other key. */
  lemma RightKeyRevokes(c: Suite, d: Dates, r: Registry, command: Command, i: nat)
    requires SignaturesVerify(c) && DatesRoundTrip(d) && Sound(c, d, r) && Possible(c, d, r, command) && command.Revoke?
    requires i < |r.keys| - 1 && r.keys[i].fingerprint == command.fingerprint
    requires c.publicKeyOf(command.activeKey) == r.keys[|r.keys| - 1].publicKey
    ensures Next(c, d, r, command).active == r.active
    ensures Next(c, d, r, command).keys == RevokeIn(r.keys, command.fingerprint, d.iso(command.now), command.reason)
  {
    RevocationProposes(c, d, r, command, i);
    RevokedVerifies(c, d, r, command.fingerprint, command.now, command.reason, command.activeKey, command.issued);
    RevocationKeepsShape(c, d, r, command);
  }

  // ----- The walk to genesis -----

  /** The entry reached from a fingerprint after following `signedBy` so many times. */
  function Ancestor(keys: seq<KeyEntry>, f: Text, steps: nat): Option<KeyEntry>
    decreases steps
  {
    match ByFingerprint(keys, f)
    case None => None
    case Some(e) =>
      if steps == 0 then Some(e) else if Truthy(e.signedBy) then Ancestor(keys, e.signedBy.value, steps - 1) else None
  }

  /** From the i-th entry the walk along `signedBy` ends at the genesis entry after exactly i steps. */
  lemma {:induction false} WalkEndsAtGenesis(c: Suite, d: Dates, r: Registry, i: nat)
    requires Sound(c, d, r) && i < |r.keys|
    ensures Ancestor(r.keys, r.keys[i].fingerprint, i) == Some(r.keys[0]) && r.keys[0].signedBy == None
  {
    LastIs(r.keys, i);
    assert HasParent(r.keys, 0) && HasParent(r.keys, i);
    if i > 0 {
      assert HasParent(r.keys, i - 1);
      WalkEndsAtGenesis(c, d, r, i - 1);
    }
  }

  // ----- How keys resolve -----

  /** At any time not before the registry was issued: the last key is active, revoked keys are revoked, all others expired. */
  lemma StatusExactly(c: Suite, d: Dates, r: Registry, i: nat, now: int)
    requires Sound(c, d, r) && i < |r.keys| && d.parse(r.issuedAt) <= now
    ensures FirstEntry(r.keys, FingerprintKey(c, r.keys[i].publicKey)) == Some(r.keys[i])
    ensures StatusOf(d, r.keys[i], now) ==
      if i == |r.keys| - 1 then Active(r.keys[i]) else if Truthy(r.keys[i].revokedAt) then Revoked(r.keys[i]) else Expired(r.keys[i])
  {
    assert r.keys[i] in r.keys;
    FirstIs(r.keys, i);
    assert DatedBefore(d, r.keys[i], d.parse(r.issuedAt));
  }

  predicate IsRevoked(r: Registry, f: Text) {
    exists i :: 0 <= i < |r.keys| && r.keys[i].fingerprint == f && Truthy(r.keys[i].revokedAt)
  }

  lemma NextKeepsRevoked(c: Suite, d: Dates, r: Registry, command: Command, f: Text)
    requires DatesRoundTrip(d) && IsRevoked(r, f)
    ensures IsRevoked(Next(c, d, r, command), f)
  {
    var i :| 0 <= i < |r.keys| && r.keys[i].fingerprint == f && Truthy(r.keys[i].revokedAt);
    var next := Next(c, d, r, command);
    assert d.iso(command.now) != [];
    assert next.keys[i].fingerprint == f && Truthy(next.keys[i].revokedAt);
  }

  /** A revoked key resolves as revoked in every later registry, at all times not before that registry was issued. */
  lemma {:induction false} RevokedForGood(c: Suite, d: Dates, r: Registry, commands: seq<Command>, f: Text, now: int)
    requires DatesRoundTrip(d) && DigestsPrint(c) && Sound(c, d, r) && PossibleRun(c, d, r, commands) && IsRevoked(r, f)
    requires d.parse(Run(c, d, r, commands).issuedAt) <= now
    ensures var later := FirstEntry(Run(c, d, r, commands).keys, f); later.Some? && StatusOf(d, later.value, now).Revoked?
    decreases |commands|
  {
    if commands == [] {
      var i :| 0 <= i < |r.keys| && r.keys[i].fingerprint == f && Truthy(r.keys[i].revokedAt);
      StatusExactly(c, d, r, i, now);
      FirstIs(r.keys, i);
    } else {
      NextIsSound(c, d, r, commands[0]);
      NextKeepsRevoked(c, d, r, commands[0], f);
      RevokedForGood(c, d, Next(c, d, r, commands[0]), commands[1..], f, now);
    }
  }

  /** The command revokes this key, and its registry is accepted. */
  predicate Revokes(c: Suite, d: Dates, r: Registry, command: Command, f: Text) {
    command.Revoke? && command.fingerprint == f &&
    Proposed(c, d, r, command).Some? && Verified(c, Proposed(c, d, r, command).value)
  }

  /** Some command of the run revokes the key later than `now`. */
  predicate RevokedAfter(c: Suite, d: Dates, r: Registry, commands: seq<Command>, f: Text, now: int)
    decreases |commands|
  {
    commands != [] &&
    ((Revokes(c, d, r, commands[0], f) && now < commands[0].now) ||
     RevokedAfter(c, d, Next(c, d, r, commands[0]), commands[1..], f, now))
  }

  lemma NextRevokedAt(c: Suite, d: Dates, r: Registry, command: Command, i: nat)
    requires i < |r.keys| && Truthy(r.keys[i].revokedAt)
    ensures var next, f := Next(c, d, r, command), r.keys[i].fingerprint;
      i < |next.keys| && next.keys[i].fingerprint == f &&
      next.keys[i].revokedAt == if Revokes(c, d, r, command, f) then Some(d.iso(command.now)) else r.keys[i].revokedAt
  {
  }

  lemma {:induction false} RevocationMovesOn(c: Suite, d: Dates, r: Registry, commands: seq<Command>, i: nat, now: int)
    requires DatesRoundTrip(d) && DigestsPrint(c) && Sound(c, d, r) && PossibleRun(c, d, r, commands)
    requires i < |r.keys| && Truthy(r.keys[i].revokedAt)
    ensures var later, f := Run(c, d, r, commands), r.keys[i].fingerprint;
      i < |later.keys| && later.keys[i].fingerprint == f && Truthy(later.keys[i].revokedAt) &&
      (d.parse(later.keys[i].revokedAt.value) <= now <==>
        d.parse(r.keys[i].revokedAt.value) <= now && !RevokedAfter(c, d, r, commands, f, now))
    decreases |commands|
  {
    if commands != [] {
      var command := commands[0];
      NextIsSound(c, d, r, command);
      NextRevokedAt(c, d, r, command, i);
      assert d.parse(d.iso(command.now)) == command.now && d.iso(command.now) != [];
      assert DatedBefore(d, r.keys[i], d.parse(r.issuedAt));
      RevocationMovesOn(c, d, Next(c, d, r, command), commands[1..], i, now);
    }
  }

  lemma RevokedFrom(d: Dates, keys: seq<KeyEntry>, i: nat, now: int)
    requires UniqueFingerprints(keys) && i < |keys| && Truthy(keys[i].revokedAt)
    ensures var e := FirstEntry(keys, keys[i].fingerprint);
      e.Some? && (StatusOf(d, e.value, now).Revoked? <==> d.parse(keys[i].revokedAt.value) <= now)
  {
    FirstIs(keys, i);
  }

  /**
   At any time whatever, a later registry answers that a revoked key is revoked exactly when the
   earlier one did and no command in between revoked the key again later than that time.
   */
  lemma RevokedAnswerSurvivesExactly(c: Suite, d: Dates, r: Registry, commands: seq<Command>, f: Text, now: int)
    requires DatesRoundTrip(d) && DigestsPrint(c) && Sound(c, d, r) && PossibleRun(c, d, r, commands) && IsRevoked(r, f)
    ensures var before, later := FirstEntry(r.keys, f), FirstEntry(Run(c, d, r, commands).keys, f);
      before.Some? && later.Some? &&
      (StatusOf(d, later.value, now).Revoked? <==>
        StatusOf(d, before.value, now).Revoked? && !RevokedAfter(c, d, r, commands, f, now))
  {
    var i :| 0 <= i < |r.keys| && r.keys[i].fingerprint == f && Truthy(r.keys[i].revokedAt);
    var later := Run(c, d, r, commands);
    RunIsSound(c, d, r, commands);
    RevocationMovesOn(c, d, r, commands, i, now);
    RevokedFrom(d, r.keys, i, now);
    RevokedFrom(d, later.keys, i, now);
  }

  /** A retired key, revoked at time 2 and again at time 4, was revoked at time 3 and is then only expired at time 3. */
  lemma SecondRevocationUndoesAnswer(c: Suite, d: Dates, serverId: Text, oldKey: Text, newKey: Text)
    requires SignaturesVerify(c) && DatesRoundTrip(d) && DigestsPrint(c)
    requires FingerprintKey(c, c.publicKeyOf(oldKey)) != FingerprintKey(c, c.publicKeyOf(newKey))
    ensures var r0, f := Genesis(c, d, serverId, oldKey, 0, 0), FingerprintKey(c, c.publicKeyOf(oldKey));
      var r1 := Next(c, d, r0, Rotate(oldKey, newKey, 1, 1));
      var r2 := Next(c, d, r1, Revoke(f, None, newKey, 2, 2));
      var r3 := Next(c, d, r2, Revoke(f, None, newKey, 4, 4));
      r2.keys != [] && r3.keys != [] && r2.keys[0].fingerprint == r3.keys[0].fingerprint == f &&
      StatusOf(d, r2.keys[0], 3).Revoked? && StatusOf(d, r3.keys[0], 3).Expired?
  {
    var r0, f := Genesis(c, d, serverId, oldKey, 0, 0), FingerprintKey(c, c.publicKeyOf(oldKey));
    GenesisIsSound(c, d, serverId, oldKey, 0, 0);
    assert d.parse(d.iso(0)) == 0;
    var rotate := Rotate(oldKey, newKey, 1, 1);
    var r1 := Next(c, d, r0, rotate);
    RotatedOnce(c, d, r0, rotate);
    RevokedAt(c, d, r1, f, newKey, 2);
    var r2 := Next(c, d, r1, Revoke(f, None, newKey, 2, 2));
    RevokedAt(c, d, r2, f, newKey, 4);
  }

  /** One rotation from a registry of one entry. */
  lemma RotatedOnce(c: Suite, d: Dates, r: Registry, command: Command)
    requires SignaturesVerify(c) && DatesRoundTrip(d) && DigestsPrint(c) && Sound(c, d, r) && |r.keys| == 1
    requires command.Rotate? && Possible(c, d, r, command) && command.now == command.issued
    requires c.publicKeyOf(command.previousKey) == r.keys[0].publicKey
    ensures var next := Next(c, d, r, command);
      Sound(c, d, next) && |next.keys| == 2 && next.keys[1].publicKey == c.publicKeyOf(command.newKey) &&
      next.keys[0] == r.keys[0].(validUntil := Some(d.iso(command.now))) && d.parse(next.issuedAt) == command.issued
  {
    NextIsSound(c, d, r, command);
    RightKeyRotates(c, d, r, command);
    RotationKeepsShape(c, d, r, command);
  }

  /** One revocation of the first of two entries. */
  lemma RevokedAt(c: Suite, d: Dates, r: Registry, f: Text, activeKey: Text, now: int)
    requires SignaturesVerify(c) && DatesRoundTrip(d) && DigestsPrint(c) && Sound(c, d, r) && |r.keys| == 2
    requires r.keys[0].fingerprint == f && r.keys[1].publicKey == c.publicKeyOf(activeKey) && d.parse(r.issuedAt) <= now
    ensures var next := Next(c, d, r, Revoke(f, None, activeKey, now, now));
      Sound(c, d, next) && |next.keys| == 2 && next.keys[1] == r.keys[1] && d.parse(next.issuedAt) == now &&
      next.keys[0] == RevokeEntry(r.keys[0], d.iso(now), None)
  {
    var command := Revoke(f, None, activeKey, now, now);
    NextIsSound(c, d, r, command);
    RightKeyRevokes(c, d, r, command, 0);
    RevocationKeepsShape(c, d, r, command);
  }
}
