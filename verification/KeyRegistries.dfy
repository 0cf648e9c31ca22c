/** Key registries: their signed form, the verification of the chain of trust, and the commands that change them. */
module KeyRegistries {
  import opened Texts
  import opened Json
  import opened Crypto
  import opened JsMaps

  datatype KeyEntry = KeyEntry(
    fingerprint: Text,
    publicKey: Text,
    validFrom: Text,
    validUntil: Option<Text>,
    revokedAt: Option<Text>,
    revocationReason: Option<Text>,
    signedBy: Option<Text>,
    signature: Option<Text>)

  datatype Registry = Registry(
    registryVersion: Text,
    serverId: Text,
    active: Text,
    keys: seq<KeyEntry>,
    issuedAt: Text,
    ttlSeconds: NumberLiteral,
    signature: Text)

  /** Timestamps: how a moment prints, and when a text is. */
  datatype Dates = Dates(iso: int -> Text, parse: Text -> int)

  ghost predicate DatesRoundTrip(d: Dates) {
    forall n :: d.parse(d.iso(n)) == n && d.iso(n) != []
  }

  // ----- What is signed -----

  const VERSION: Text := Ascii("1.0")

  const HOUR: NumberLiteral := [51, 54, 48, 48]

  function FingerprintKey(c: Suite, publicKey: Text): Text {
    c.sha(publicKey)
  }

  function Field(key: string, t: Text): Member {
    Member(Ascii(key), Leaf(Str(t)))
  }

  function OptionalField(key: string, t: Option<Text>): seq<Member> {
    if t.Some? then [Field(key, t.value)] else []
  }

  function EntrySigningPayload(c: Suite, e: KeyEntry): Text {
    CanonicalHash(c, Obj([
      Field("fingerprint", e.fingerprint), Field("publicKey", e.publicKey), Field("validFrom", e.validFrom),
      Member(Ascii("signedBy"), Leaf(if e.signedBy.Some? then Str(e.signedBy.value) else Null))]))
  }

  function EntryJson(e: KeyEntry): Value {
    Obj([Field("fingerprint", e.fingerprint), Field("publicKey", e.publicKey), Field("validFrom", e.validFrom)]
        + OptionalField("validUntil", e.validUntil) + OptionalField("revokedAt", e.revokedAt)
        + OptionalField("revocationReason", e.revocationReason) + OptionalField("signedBy", e.signedBy)
        + OptionalField("signature", e.signature))
  }

  function RegistrySigningPayload(c: Suite, r: Registry): Text {
    CanonicalHash(c, Obj([
      Field("registryVersion", r.registryVersion), Field("serverId", r.serverId), Field("active", r.active),
      Member(Ascii("keys"), Arr(seq(|r.keys|, i requires 0 <= i < |r.keys| => EntryJson(r.keys[i])))),
      Field("issuedAt", r.issuedAt), Member(Ascii("ttlSeconds"), Leaf(Num(r.ttlSeconds)))]))
  }

  // ----- Verification -----

  /** The last entry of a fingerprint, as a map keyed by fingerprint keeps it. */
  function ByFingerprint(keys: seq<KeyEntry>, f: Text): Option<KeyEntry> {
    if keys == [] then None
    else if keys[|keys| - 1].fingerprint == f then Some(keys[|keys| - 1])
    else ByFingerprint(keys[..|keys| - 1], f)
  }

  /** The entry is a genesis entry, or the entry it names signed it. */
  predicate Vouched(c: Suite, keys: seq<KeyEntry>, e: KeyEntry) {
    Truthy(e.signedBy) ==>
      Truthy(e.signature) && ByFingerprint(keys, e.signedBy.value).Some? &&
      c.verify(ByFingerprint(keys, e.signedBy.value).value.publicKey, EntrySigningPayload(c, e), e.signature.value)
  }

  predicate Verified(c: Suite, r: Registry) {
    r.registryVersion == VERSION &&
    (forall e | e in r.keys :: FingerprintKey(c, e.publicKey) == e.fingerprint) &&
    (forall e | e in r.keys :: Vouched(c, r.keys, e)) &&
    ByFingerprint(r.keys, r.active).Some? &&
    var active := ByFingerprint(r.keys, r.active).value;
    !Truthy(active.revokedAt) && c.verify(active.publicKey, RegistrySigningPayload(c, r), r.signature)
  }

  lemma {:induction false} PutGet<V(!new)>(m: JsMap<Text, V>, k: Text, v: V, f: Text)
    ensures Get(Put(m, k, v), f) == if f == k then Some(v) else Get(m, f)
  {
    if m != [] && m[0].key != k {
      PutGet(m[1..], k, v, f);
    }
  }

  /** `verifyKeyRegistry`: index the entries, check each against its parent, then the registry itself. */
  method VerifyKeyRegistry(c: Suite, registry: Registry) returns (ok: bool)
    ensures ok <==> Verified(c, registry)
  {
    if registry.registryVersion != VERSION {
      return false;
    }
    var keys := registry.keys;
    var byFingerprint: JsMap<Text, KeyEntry> := [];
    for i := 0 to |keys|
      invariant forall j | 0 <= j < i :: FingerprintKey(c, keys[j].publicKey) == keys[j].fingerprint
      invariant forall f :: Get(byFingerprint, f) == ByFingerprint(keys[..i], f)
    {
      var entry := keys[i];
      if FingerprintKey(c, entry.publicKey) != entry.fingerprint {
        return false;
      }
      forall f ensures Get(Put(byFingerprint, entry.fingerprint, entry), f) == ByFingerprint(keys[..i + 1], f) {
        PutGet(byFingerprint, entry.fingerprint, entry, f);
        assert keys[..i + 1][..i] == keys[..i];
      }
      byFingerprint := Put(byFingerprint, entry.fingerprint, entry);
    }
    assert keys[..|keys|] == keys;
    for i := 0 to |keys|
      invariant forall j | 0 <= j < i :: Vouched(c, keys, keys[j])
    {
      var entry := keys[i];
      if !Truthy(entry.signedBy) {
        continue;
      }
      if !Truthy(entry.signature) {
        assert !Vouched(c, keys, entry);
        return false;
      }
      var parent := Get(byFingerprint, entry.signedBy.value);
      if parent.None? || !c.verify(parent.value.publicKey, EntrySigningPayload(c, entry), entry.signature.value) {
        assert !Vouched(c, keys, entry);
        return false;
      }
    }
    var active := Get(byFingerprint, registry.active);
    if active.None? || Truthy(active.value.revokedAt) {
      return false;
    }
    return c.verify(active.value.publicKey, RegistrySigningPayload(c, registry), registry.signature);
  }

  // ----- Looking a key up -----

  datatype Resolution =
    | Active(entry: KeyEntry)
    | Retired(entry: KeyEntry)
    | Revoked(entry: KeyEntry)
    | Expired(entry: KeyEntry)
    | NotYetValid(entry: KeyEntry)
    | Unknown

  function StatusOf(d: Dates, e: KeyEntry, now: int): Resolution {
    if Truthy(e.revokedAt) && d.parse(e.revokedAt.value) <= now then Revoked(e)
    else if d.parse(e.validFrom) > now then NotYetValid(e)
    else if Truthy(e.validUntil) && d.parse(e.validUntil.value) <= now then Expired(e)
    else if Truthy(e.validUntil) then Retired(e)
    else Active(e)
  }

  /** The first entry of a fingerprint. */
  function FirstEntry(keys: seq<KeyEntry>, f: Text): Option<KeyEntry> {
    if keys == [] then None else if keys[0].fingerprint == f then Some(keys[0]) else FirstEntry(keys[1..], f)
  }

  /** `resolveKey`: the first entry of the key's fingerprint decides. */
  method ResolveKey(c: Suite, d: Dates, registry: Registry, publicKey: Text, now: int) returns (r: Resolution)
    ensures r == match FirstEntry(registry.keys, FingerprintKey(c, publicKey))
      case None => Unknown
      case Some(e) => StatusOf(d, e, now)
  {
    var target, keys := FingerprintKey(c, publicKey), registry.keys;
    assert keys[0..] == keys;
    for i := 0 to |keys|
      invariant FirstEntry(keys[i..], target) == FirstEntry(keys, target)
    {
      var entry := keys[i];
      assert keys[i..][0] == entry && keys[i..][1..] == keys[i + 1..];
      if entry.fingerprint != target {
        continue;
      }
      if Truthy(entry.revokedAt) && d.parse(entry.revokedAt.value) <= now {
        return Revoked(entry);
      }
      if d.parse(entry.validFrom) > now {
        return NotYetValid(entry);
      }
      if Truthy(entry.validUntil) && d.parse(entry.validUntil.value) <= now {
        return Expired(entry);
      }
      if Truthy(entry.validUntil) {
        return Retired(entry);
      }
      return Active(entry);
    }
    return Unknown;
  }

  // ----- Building -----

  predicate LiveEntry(e: KeyEntry) {
    !Truthy(e.validUntil) && !Truthy(e.revokedAt)
  }

  function LastLive(entries: seq<KeyEntry>): Option<KeyEntry> {
    if entries == [] then None
    else if LiveEntry(entries[|entries| - 1]) then Some(entries[|entries| - 1])
    else LastLive(entries[..|entries| - 1])
  }

  /** `buildKeyRegistry`: fails when no entry is live. */
  function BuildKeyRegistry(c: Suite, d: Dates, serverId: Text, entries: seq<KeyEntry>, privateKey: Text, issued: int): Option<Registry> {
    match LastLive(entries)
    case None => None
    case Some(active) =>
      var base := Registry(VERSION, serverId, active.fingerprint, entries, d.iso(issued), HOUR, []);
      Some(base.(signature := c.sign(privateKey, RegistrySigningPayload(c, base))))
  }

  datatype Parent = Parent(fingerprint: Text, privateKey: Text)

  function BuildKeyEntry(c: Suite, publicKey: Text, validFrom: Text, parent: Option<Parent>): KeyEntry {
    var signedBy := if parent.Some? then Some(parent.value.fingerprint) else None;
    var base := KeyEntry(FingerprintKey(c, publicKey), publicKey, validFrom, None, None, None, signedBy, None);
    if parent.None? then base
    else base.(signature := Some(c.sign(parent.value.privateKey, EntrySigningPayload(c, base))))
  }

  // ----- The commands, as transitions of the registry on file -----

  datatype Command =
    | Rotate(previousKey: Text, newKey: Text, now: int, issued: int)
    | Revoke(fingerprint: Text, reason: Option<Text>, activeKey: Text, now: int, issued: int)

  /** Gives every entry of one fingerprint an end of validity. */
  function Retire(keys: seq<KeyEntry>, f: Text, now: Text): (r: seq<KeyEntry>)
    ensures |r| == |keys|
    ensures forall i | 0 <= i < |keys| :: r[i] == if keys[i].fingerprint == f then keys[i].(validUntil := Some(now)) else keys[i]
  {
    seq(|keys|, i requires 0 <= i < |keys| => if keys[i].fingerprint == f then keys[i].(validUntil := Some(now)) else keys[i])
  }

  function RevokeEntry(e: KeyEntry, now: Text, reason: Option<Text>): KeyEntry {
    e.(revokedAt := Some(now), revocationReason := reason)
  }

  /** Marks every entry of one fingerprint as revoked; an earlier revocation is overwritten. */
  function RevokeIn(keys: seq<KeyEntry>, f: Text, now: Text, reason: Option<Text>): (r: seq<KeyEntry>)
    ensures |r| == |keys|
    ensures forall i | 0 <= i < |keys| :: r[i] == if keys[i].fingerprint == f then RevokeEntry(keys[i], now, reason) else keys[i]
  {
    seq(|keys|, i requires 0 <= i < |keys| => if keys[i].fingerprint == f then RevokeEntry(keys[i], now, reason) else keys[i])
  }

  /** `glyph keys init` */
  function Genesis(c: Suite, d: Dates, serverId: Text, privateKey: Text, now: int, issued: int): Registry {
    var entry := BuildKeyEntry(c, c.publicKeyOf(privateKey), d.iso(now), None);
    var base := Registry(VERSION, serverId, entry.fingerprint, [entry], d.iso(issued), HOUR, []);
    base.(signature := c.sign(privateKey, RegistrySigningPayload(c, base)))
  }

  /** The registry a command wants to save, if it gets that far. */
  function Proposed(c: Suite, d: Dates, current: Registry, command: Command): Option<Registry> {
    match command
    case Rotate(previousKey, newKey, now, issued) =>
      (match FirstEntry(current.keys, current.active)
       case None => None
       case Some(e) =>
         var entry := BuildKeyEntry(c, c.publicKeyOf(newKey), d.iso(now), Some(Parent(e.fingerprint, previousKey)));
         BuildKeyRegistry(c, d, current.serverId, Retire(current.keys, e.fingerprint, d.iso(now)) + [entry], newKey, issued))
    case Revoke(f, reason, activeKey, now, issued) =>
      if FirstEntry(current.keys, f).None? || f == current.active then None
      else BuildKeyRegistry(c, d, current.serverId, RevokeIn(current.keys, f, d.iso(now), reason), activeKey, issued)
  }

  /** The registry on file after a command: unverifiable proposals are refused. */
  function Next(c: Suite, d: Dates, current: Registry, command: Command): Registry {
    match Proposed(c, d, current, command)
    case Some(next) => if Verified(c, next) then next else current
    case None => current
  }
}
