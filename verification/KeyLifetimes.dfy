/** From when to when a key counts, after a rotation and after a revocation. */
module KeyLifetimes {
  import opened Texts
  import opened Crypto
  import opened KeyRegistries
  import opened KeyProofs

  lemma HourIs()
    ensures HOUR == Ascii("3600")
  {
    assert Ascii("3600") == ['3' as int, '6' as int, '0' as int, '0' as int];
  }

  /** A new registry has one entry, for the key that signed it and nobody vouches for, and names it active. */
  lemma GenesisExactly(c: Suite, d: Dates, serverId: Text, privateKey: Text, now: int, issued: int)
    ensures var r := Genesis(c, d, serverId, privateKey, now, issued);
      |r.keys| == 1 && r.registryVersion == Ascii("1.0") && r.serverId == serverId && r.issuedAt == d.iso(issued) &&
      r.ttlSeconds == Ascii("3600") && r.active == c.sha(c.publicKeyOf(privateKey)) &&
      r.keys[0] == KeyEntry(c.sha(c.publicKeyOf(privateKey)), c.publicKeyOf(privateKey), d.iso(now), None, None, None, None, None) &&
      r.signature == c.sign(privateKey, RegistrySigningPayload(c, r))
  {
    HourIs();
    var r := Genesis(c, d, serverId, privateKey, now, issued);
    assert RegistrySigningPayload(c, r) == RegistrySigningPayload(c, r.(signature := []));
  }

  /** Of entries with fingerprints of their own, each command touches one. */
  lemma OneEntryTouched(keys: seq<KeyEntry>, i: nat, now: Text, reason: Option<Text>)
    requires UniqueFingerprints(keys) && i < |keys|
    ensures Retire(keys, keys[i].fingerprint, now) == keys[i := keys[i].(validUntil := Some(now))]
    ensures RevokeIn(keys, keys[i].fingerprint, now, reason) == keys[i := keys[i].(revokedAt := Some(now), revocationReason := reason)]
  {
  }

  /** What a rotation leaves: the active key ends now, a new one starts now, signed by it; all else is as it was. */
  lemma RotationExactly(c: Suite, d: Dates, r: Registry, command: Command)
    requires SignaturesVerify(c) && DatesRoundTrip(d) && DigestsPrint(c)
    requires Sound(c, d, r) && Possible(c, d, r, command) && command.Rotate?
    requires c.publicKeyOf(command.previousKey) == r.keys[|r.keys| - 1].publicKey
    ensures var next, n := Next(c, d, r, command), |r.keys|;
      Sound(c, d, next) && |next.keys| == n + 1 && next.serverId == r.serverId && next.issuedAt == d.iso(command.issued) &&
      next.ttlSeconds == Ascii("3600") && next.active == c.sha(c.publicKeyOf(command.newKey)) &&
      (forall i | 0 <= i < n - 1 :: next.keys[i] == r.keys[i]) &&
      next.keys[n - 1] == r.keys[n - 1].(validUntil := Some(d.iso(command.now)))
    ensures var next, n := Next(c, d, r, command), |r.keys|;
      var entry := next.keys[n];
      entry.publicKey == c.publicKeyOf(command.newKey) && entry.fingerprint == c.sha(entry.publicKey) &&
      entry.validFrom == d.iso(command.now) && entry.signedBy == Some(r.active) &&
      entry.validUntil == None && entry.revokedAt == None && entry.revocationReason == None
  {
    NextIsSound(c, d, r, command);
    RightKeyRotates(c, d, r, command);
    RotationKeepsShape(c, d, r, command);
    var n := |r.keys|;
    assert r.keys[n - 1].fingerprint == r.active;
    HourIs();
    OneEntryTouched(r.keys, n - 1, d.iso(command.now), None);
    RotationBuilds(c, d, r, command);
  }

  lemma RotationBuilds(c: Suite, d: Dates, r: Registry, command: Command)
    requires SignaturesVerify(c) && DatesRoundTrip(d) && DigestsPrint(c)
    requires Sound(c, d, r) && Possible(c, d, r, command) && command.Rotate?
    requires c.publicKeyOf(command.previousKey) == r.keys[|r.keys| - 1].publicKey
    ensures var next := Next(c, d, r, command);
      next.serverId == r.serverId && next.issuedAt == d.iso(command.issued) && next.ttlSeconds == HOUR &&
      next.keys == RotatedKeys(c, d, r, command)
  {
    RotationProposes(c, d, r, command);
    RotationKeepsShape(c, d, r, command);
    RotatedEntries(c, d, r, command);
    BuiltVerifies(c, d, r.serverId, RotatedKeys(c, d, r, command), command.newKey, command.issued);
  }

  /** What a revocation leaves: the key is revoked from now on for this reason; all else is as it was. */
  lemma RevocationExactly(c: Suite, d: Dates, r: Registry, command: Command, i: nat)
    requires SignaturesVerify(c) && DatesRoundTrip(d) && DigestsPrint(c)
    requires Sound(c, d, r) && Possible(c, d, r, command) && command.Revoke?
    requires i < |r.keys| - 1 && r.keys[i].fingerprint == command.fingerprint
    requires c.publicKeyOf(command.activeKey) == r.keys[|r.keys| - 1].publicKey
    ensures var next := Next(c, d, r, command);
      Sound(c, d, next) && |next.keys| == |r.keys| && next.active == r.active && next.serverId == r.serverId &&
      next.issuedAt == d.iso(command.issued) && next.ttlSeconds == Ascii("3600") &&
      (forall j | 0 <= j < |r.keys| && j != i :: next.keys[j] == r.keys[j]) &&
      next.keys[i] == r.keys[i].(revokedAt := Some(d.iso(command.now)), revocationReason := command.reason)
  {
    NextIsSound(c, d, r, command);
    RightKeyRevokes(c, d, r, command, i);
    HourIs();
    OneEntryTouched(r.keys, i, d.iso(command.now), command.reason);
    RevocationProposes(c, d, r, command, i);
    RevokedVerifies(c, d, r, command.fingerprint, command.now, command.reason, command.activeKey, command.issued);
  }

  /** What `resolveKey` answers for a public key. */
  function StatusOfKey(c: Suite, d: Dates, r: Registry, publicKey: Text, now: int): Resolution {
    match FirstEntry(r.keys, FingerprintKey(c, publicKey))
    case None => Unknown
    case Some(e) => StatusOf(d, e, now)
  }

  lemma StatusByEntry(c: Suite, d: Dates, r: Registry, i: nat, now: int)
    requires Sound(c, d, r) && i < |r.keys|
    ensures StatusOfKey(c, d, r, r.keys[i].publicKey, now) == StatusOf(d, r.keys[i], now)
  {
    assert r.keys[i] in r.keys;
    FirstIs(r.keys, i);
  }

  /**
   A rotation at time T: at every time before T the new key is not yet valid and the old one, if it has
   started, is retired but usable; from T on the new key is active and the old one expired.
   */
  lemma RotationTakesEffect(c: Suite, d: Dates, r: Registry, command: Command, now: int)
    requires SignaturesVerify(c) && DatesRoundTrip(d) && DigestsPrint(c)
    requires Sound(c, d, r) && Possible(c, d, r, command) && command.Rotate?
    requires c.publicKeyOf(command.previousKey) == r.keys[|r.keys| - 1].publicKey
    ensures var next, key := Next(c, d, r, command), c.publicKeyOf(command.newKey);
      var s := StatusOfKey(c, d, next, key, now);
      (s.Active? <==> command.now <= now) && (s.NotYetValid? <==> now < command.now)
    ensures var next, before := Next(c, d, r, command), r.keys[|r.keys| - 1];
      var s := StatusOfKey(c, d, next, before.publicKey, now);
      (s.Expired? <==> command.now <= now) && (s.NotYetValid? <==> now < d.parse(before.validFrom)) &&
      (s.Retired? <==> d.parse(before.validFrom) <= now < command.now)
  {
    var next, n := Next(c, d, r, command), |r.keys|;
    RotationExactly(c, d, r, command);
    StatusByEntry(c, d, next, n, now);
    StatusByEntry(c, d, next, n - 1, now);
    assert d.parse(d.iso(command.now)) == command.now && d.iso(command.now) != [];
    assert DatedBefore(d, r.keys[n - 1], d.parse(r.issuedAt));
  }

  /** A revocation at time T: the key is revoked from T on and no sooner. */
  lemma RevocationTakesEffect(c: Suite, d: Dates, r: Registry, command: Command, i: nat, now: int)
    requires SignaturesVerify(c) && DatesRoundTrip(d) && DigestsPrint(c)
    requires Sound(c, d, r) && Possible(c, d, r, command) && command.Revoke?
    requires i < |r.keys| - 1 && r.keys[i].fingerprint == command.fingerprint
    requires c.publicKeyOf(command.activeKey) == r.keys[|r.keys| - 1].publicKey
    ensures StatusOfKey(c, d, Next(c, d, r, command), r.keys[i].publicKey, now).Revoked? <==> command.now <= now
  {
    RevocationExactly(c, d, r, command, i);
    StatusByEntry(c, d, Next(c, d, r, command), i, now);
    assert d.parse(d.iso(command.now)) == command.now && d.iso(command.now) != [];
  }

  /** Every other key counts as before. */
  lemma RevocationSparesOthers(c: Suite, d: Dates, r: Registry, command: Command, i: nat, j: nat, now: int)
    requires SignaturesVerify(c) && DatesRoundTrip(d) && DigestsPrint(c)
    requires Sound(c, d, r) && Possible(c, d, r, command) && command.Revoke?
    requires i < |r.keys| - 1 && r.keys[i].fingerprint == command.fingerprint && j < |r.keys| && j != i
    requires c.publicKeyOf(command.activeKey) == r.keys[|r.keys| - 1].publicKey
    ensures StatusOfKey(c, d, Next(c, d, r, command), r.keys[j].publicKey, now) == StatusOfKey(c, d, r, r.keys[j].publicKey, now)
  {
    RevocationExactly(c, d, r, command, i);
    StatusByEntry(c, d, Next(c, d, r, command), j, now);
    StatusByEntry(c, d, r, j, now);
  }
}
