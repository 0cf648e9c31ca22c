/** What the two signatures of a key registry bind: every field of the registry, and the fields of an entry its parent signs. */
module KeyBinding {
  import opened Texts
  import opened Json
  import opened Canonical
  import opened Crypto
  import opened KeyRegistries

  // ----- Objects whose members may be absent -----

  type Slots = seq<(Text, Option<Value>)>

  function Present(slots: Slots): seq<Member> {
    if slots == [] then []
    else
      var last := slots[|slots| - 1];
      Present(slots[..|slots| - 1]) + match last.1 case None => [] case Some(v) => [Member(last.0, v)]
  }

  predicate SlotsApart(slots: Slots) {
    (forall i, j | 0 <= i < j < |slots| :: slots[i].0 != slots[j].0) && forall i | 0 <= i < |slots| :: slots[i].0 != PROTO
  }

  predicate SlotsWellFormed(slots: Slots) {
    forall i | 0 <= i < |slots| && slots[i].1.Some? :: WellFormed(slots[i].1.value)
  }

  lemma {:induction false} LookupConcat(xs: seq<Member>, ys: seq<Member>, k: Text)
    ensures Lookup(xs + ys, k) == if Lookup(xs, k).Some? then Lookup(xs, k) else Lookup(ys, k)
  {
    if xs == [] {
      assert xs + ys == ys;
    } else {
      assert (xs + ys)[1..] == xs[1..] + ys;
      LookupConcat(xs[1..], ys, k);
    }
  }

  lemma {:induction false} WellFormedSnoc(ms: seq<Member>, m: Member)
    requires WellFormedMembers(ms) && WellFormed(m.value) && m.key !in KeySet(ms)
    ensures WellFormedMembers(ms + [m])
  {
    if ms != [] {
      KeySetCons(ms);
      WellFormedSnoc(ms[1..], m);
      assert (ms + [m])[1..] == ms[1..] + [m];
      assert ms[0].key !in KeySet(ms[1..] + [m]);
    }
  }

  /** Each slot is read back under its name, and there is nothing else. */
  lemma {:induction false} PresentLookup(slots: Slots, k: Text)
    requires SlotsApart(slots)
    ensures (forall i | 0 <= i < |slots| :: slots[i].0 != k) ==> Lookup(Present(slots), k) == None
    ensures forall i | 0 <= i < |slots| && slots[i].0 == k :: Lookup(Present(slots), k) == slots[i].1
    decreases |slots|
  {
    if slots != [] {
      var front, last := slots[..|slots| - 1], slots[|slots| - 1];
      PresentLookup(front, k);
      LookupConcat(Present(front), match last.1 case None => [] case Some(v) => [Member(last.0, v)], k);
      assert forall i | 0 <= i < |front| :: front[i] == slots[i];
    }
  }

  lemma {:induction false} PresentWellFormed(slots: Slots)
    requires SlotsApart(slots) && SlotsWellFormed(slots)
    ensures WellFormedMembers(Present(slots))
    decreases |slots|
  {
    if slots != [] {
      var front, last := slots[..|slots| - 1], slots[|slots| - 1];
      PresentWellFormed(front);
      PresentLookup(front, last.0);
      LookupFinds(Present(front), last.0);
      if last.1.Some? {
        WellFormedSnoc(Present(front), Member(last.0, last.1.value));
      } else {
        assert Present(slots) == Present(front);
      }
    }
  }

  predicate SameSlot(v: Option<Value>, w: Option<Value>) {
    (v.Some? <==> w.Some?) && (v.Some? ==> Forget(v.value) == Forget(w.value))
  }

  predicate SameNames(xs: Slots, ys: Slots) {
    |xs| == |ys| && forall i | 0 <= i < |xs| :: xs[i].0 == ys[i].0
  }

  /** Two such objects that are equal up to key order agree in every slot. */
  lemma PresentBinds(xs: Slots, ys: Slots, i: nat)
    requires SlotsApart(xs) && SameNames(xs, ys) && SlotsWellFormed(xs) && SlotsWellFormed(ys)
    requires ForgetMembers(Present(xs)) == ForgetMembers(Present(ys)) && i < |xs|
    ensures SameSlot(xs[i].1, ys[i].1)
  {
    var a, b, k := Present(xs), Present(ys), xs[i].0;
    assert SlotsApart(ys) && ys[i].0 == k;
    PresentWellFormed(xs);
    PresentWellFormed(ys);
    PresentLookup(xs, k);
    PresentLookup(ys, k);
    LookupFinds(a, k);
    LookupFinds(b, k);
    ForgetMembersKeys(a);
    ForgetMembersKeys(b);
    assert k in ForgetMembers(a) <==> k in ForgetMembers(b);
    if k in KeySet(a) {
      ForgetMemberAt(a, k);
      ForgetMemberAt(b, k);
    }
  }

  lemma HashBinds(c: Suite, xs: Slots, ys: Slots, i: nat)
    requires CollisionFree(c) && SlotsApart(xs) && SameNames(xs, ys) && SlotsWellFormed(xs) && SlotsWellFormed(ys)
    requires CanonicalHash(c, Obj(Present(xs))) == CanonicalHash(c, Obj(Present(ys))) && i < |xs|
    ensures SameSlot(xs[i].1, ys[i].1)
  {
    assert SlotsApart(ys);
    PresentWellFormed(xs);
    PresentWellFormed(ys);
    CanonicalHashBinds(c, Obj(Present(xs)), Obj(Present(ys)));
    PresentBinds(xs, ys, i);
  }

  // ----- The signed objects -----

  function Line(t: Text): Option<Value> {
    Some(Leaf(Str(t)))
  }

  function OptionalLine(t: Option<Text>): Option<Value> {
    if t.Some? then Line(t.value) else None
  }

  function EntrySlots(e: KeyEntry): Slots {
    [(Ascii("fingerprint"), Line(e.fingerprint)), (Ascii("publicKey"), Line(e.publicKey)), (Ascii("validFrom"), Line(e.validFrom)),
     (Ascii("validUntil"), OptionalLine(e.validUntil)), (Ascii("revokedAt"), OptionalLine(e.revokedAt)),
     (Ascii("revocationReason"), OptionalLine(e.revocationReason)), (Ascii("signedBy"), OptionalLine(e.signedBy)),
     (Ascii("signature"), OptionalLine(e.signature))]
  }

  function SignedEntrySlots(e: KeyEntry): Slots {
    [(Ascii("fingerprint"), Line(e.fingerprint)), (Ascii("publicKey"), Line(e.publicKey)), (Ascii("validFrom"), Line(e.validFrom)),
     (Ascii("signedBy"), if e.signedBy.Some? then Line(e.signedBy.value) else Some(Leaf(Null)))]
  }

  function RegistrySlots(r: Registry): Slots {
    [(Ascii("registryVersion"), Line(r.registryVersion)), (Ascii("serverId"), Line(r.serverId)), (Ascii("active"), Line(r.active)),
     (Ascii("keys"), Some(Arr(seq(|r.keys|, i requires 0 <= i < |r.keys| => EntryJson(r.keys[i]))))),
     (Ascii("issuedAt"), Line(r.issuedAt)), (Ascii("ttlSeconds"), Some(Leaf(Num(r.ttlSeconds))))]
  }

  /** The first unit and the length tell the names of one object apart. */
  predicate ShapesApart(names: seq<string>) {
    (forall i | 0 <= i < |names| :: names[i] != "" && (|names[i]| == 9 ==> names[i][0] in "pvrs")) &&
    forall i, j | 0 <= i < j < |names| :: |names[i]| != |names[j]| || names[i][0] != names[j][0]
  }

  lemma NamesTellSlotsApart(slots: Slots, names: seq<string>)
    requires ShapesApart(names) && |slots| == |names|
    requires forall i | 0 <= i < |names| :: slots[i].0 == Ascii(names[i]) && names[i][0] < 128 as char
    ensures SlotsApart(slots)
  {
    forall i, j | 0 <= i < j < |slots| ensures slots[i].0 != slots[j].0 {
      assert slots[i].0[0] == names[i][0] as int && slots[j].0[0] == names[j][0] as int;
      assert |slots[i].0| == |names[i]| && |slots[j].0| == |names[j]|;
    }
    forall i | 0 <= i < |slots| ensures slots[i].0 != PROTO {
      assert |slots[i].0| == |names[i]| && slots[i].0[0] == names[i][0] as int;
    }
  }

  lemma EntrySlotsApart(e: KeyEntry)
    ensures SlotsApart(EntrySlots(e)) && SlotsApart(SignedEntrySlots(e)) && SlotsWellFormed(EntrySlots(e))
    ensures SlotsWellFormed(SignedEntrySlots(e))
  {
    NamesTellSlotsApart(EntrySlots(e),
      ["fingerprint", "publicKey", "validFrom", "validUntil", "revokedAt", "revocationReason", "signedBy", "signature"]);
    SignedEntrySlotsApart(e);
  }

  lemma SignedEntrySlotsApart(e: KeyEntry)
    ensures SlotsApart(SignedEntrySlots(e)) && SlotsWellFormed(SignedEntrySlots(e))
  {
    NamesTellSlotsApart(SignedEntrySlots(e), ["fingerprint", "publicKey", "validFrom", "signedBy"]);
  }

  lemma PresentPrefix(slots: Slots, n: nat)
    requires n < |slots|
    ensures Present(slots[..n + 1]) == Present(slots[..n]) + match slots[n].1 case None => [] case Some(v) => [Member(slots[n].0, v)]
  {
    assert slots[..n + 1][..n] == slots[..n];
  }

  lemma EntryIsPresent(e: KeyEntry)
    ensures EntryJson(e) == Obj(Present(EntrySlots(e)))
  {
    var slots := EntrySlots(e);
    FixedEntrySlots(e);
    PresentPrefix(slots, 3);
    PresentPrefix(slots, 4);
    PresentPrefix(slots, 5);
    PresentPrefix(slots, 6);
    PresentPrefix(slots, 7);
    assert slots[..8] == slots;
  }

  lemma FixedEntrySlots(e: KeyEntry)
    ensures Present(EntrySlots(e)[..3]) ==
      [Field("fingerprint", e.fingerprint), Field("publicKey", e.publicKey), Field("validFrom", e.validFrom)]
  {
    var slots := EntrySlots(e);
    PresentPrefix(slots, 0);
    PresentPrefix(slots, 1);
    PresentPrefix(slots, 2);
  }

  /** An entry of a registry by the names of its members. */
  lemma EntryNames(e: KeyEntry)
    ensures EntryJson(e).Obj?
    ensures var ms := EntryJson(e).members;
      Lookup(ms, Ascii("fingerprint")) == Line(e.fingerprint) && Lookup(ms, Ascii("publicKey")) == Line(e.publicKey) &&
      Lookup(ms, Ascii("validFrom")) == Line(e.validFrom) && Lookup(ms, Ascii("validUntil")) == OptionalLine(e.validUntil) &&
      Lookup(ms, Ascii("revokedAt")) == OptionalLine(e.revokedAt) &&
      Lookup(ms, Ascii("revocationReason")) == OptionalLine(e.revocationReason) &&
      Lookup(ms, Ascii("signedBy")) == OptionalLine(e.signedBy) && Lookup(ms, Ascii("signature")) == OptionalLine(e.signature)
  {
    EntryIsPresent(e);
    EntrySlotsApart(e);
    var slots := EntrySlots(e);
    forall i | 0 <= i < 8 ensures i < |slots| && Lookup(Present(slots), slots[i].0) == slots[i].1 {
      PresentLookup(slots, slots[i].0);
    }
    assert slots[0].0 == Ascii("fingerprint") && slots[1].0 == Ascii("publicKey") && slots[2].0 == Ascii("validFrom");
    assert slots[3].0 == Ascii("validUntil") && slots[4].0 == Ascii("revokedAt") && slots[5].0 == Ascii("revocationReason");
    assert slots[6].0 == Ascii("signedBy") && slots[7].0 == Ascii("signature");
  }

  lemma EntryWellFormed(e: KeyEntry)
    ensures WellFormed(EntryJson(e))
  {
    EntryIsPresent(e);
    EntrySlotsApart(e);
    PresentWellFormed(EntrySlots(e));
  }

  lemma SameLines(a: Option<Text>, b: Option<Text>)
    ensures SameSlot(OptionalLine(a), OptionalLine(b)) ==> a == b
  {
  }

  lemma EntrySlotFixed(a: KeyEntry, b: KeyEntry, i: nat)
    requires Forget(EntryJson(a)) == Forget(EntryJson(b)) && i < 8
    ensures i < |EntrySlots(a)| && i < |EntrySlots(b)| && SameSlot(EntrySlots(a)[i].1, EntrySlots(b)[i].1)
  {
    EntryIsPresent(a);
    EntryIsPresent(b);
    EntrySlotsApart(a);
    EntrySlotsApart(b);
    PresentBinds(EntrySlots(a), EntrySlots(b), i);
  }

  lemma EntryFixed(a: KeyEntry, b: KeyEntry)
    requires Forget(EntryJson(a)) == Forget(EntryJson(b))
    ensures a == b
  {
    forall i | 0 <= i < 8 ensures i < |EntrySlots(a)| && i < |EntrySlots(b)| && SameSlot(EntrySlots(a)[i].1, EntrySlots(b)[i].1) {
      EntrySlotFixed(a, b, i);
    }
    assert SameSlot(EntrySlots(a)[0].1, EntrySlots(b)[0].1) && SameSlot(EntrySlots(a)[1].1, EntrySlots(b)[1].1);
    assert SameSlot(EntrySlots(a)[2].1, EntrySlots(b)[2].1) && SameSlot(EntrySlots(a)[3].1, EntrySlots(b)[3].1);
    assert SameSlot(EntrySlots(a)[4].1, EntrySlots(b)[4].1) && SameSlot(EntrySlots(a)[5].1, EntrySlots(b)[5].1);
    assert SameSlot(EntrySlots(a)[6].1, EntrySlots(b)[6].1) && SameSlot(EntrySlots(a)[7].1, EntrySlots(b)[7].1);
    SameLines(a.validUntil, b.validUntil);
    SameLines(a.revokedAt, b.revokedAt);
    SameLines(a.revocationReason, b.revocationReason);
    SameLines(a.signedBy, b.signedBy);
    SameLines(a.signature, b.signature);
  }

  lemma {:induction false} EntriesFixed(xs: seq<Value>, ys: seq<Value>, keys: seq<KeyEntry>, others: seq<KeyEntry>)
    requires |xs| == |keys| && |ys| == |others| && ForgetItems(xs) == ForgetItems(ys)
    requires forall i | 0 <= i < |keys| :: xs[i] == EntryJson(keys[i])
    requires forall i | 0 <= i < |others| :: ys[i] == EntryJson(others[i])
    ensures keys == others
  {
    assert |xs| == |ForgetItems(xs)| == |ys|;
    forall i | 0 <= i < |keys| ensures keys[i] == others[i] {
      ForgetItemAt(xs, i);
      ForgetItemAt(ys, i);
      EntryFixed(keys[i], others[i]);
    }
  }

  // ----- Main results -----

  lemma SignedEntryIsPresent(c: Suite, e: KeyEntry)
    ensures EntrySigningPayload(c, e) == CanonicalHash(c, Obj(Present(SignedEntrySlots(e))))
  {
    var slots := SignedEntrySlots(e);
    PresentPrefix(slots, 0);
    PresentPrefix(slots, 1);
    PresentPrefix(slots, 2);
    PresentPrefix(slots, 3);
    assert slots[..4] == slots && slots[..0] == [];
    assert Present(slots) == [
      Field("fingerprint", e.fingerprint), Field("publicKey", e.publicKey), Field("validFrom", e.validFrom),
      Member(Ascii("signedBy"), Leaf(if e.signedBy.Some? then Str(e.signedBy.value) else Null))];
  }

  lemma SignedEntrySlotFixed(c: Suite, a: KeyEntry, b: KeyEntry, i: nat)
    requires CollisionFree(c) && EntrySigningPayload(c, a) == EntrySigningPayload(c, b) && i < 4
    ensures i < |SignedEntrySlots(a)| && i < |SignedEntrySlots(b)| && SameSlot(SignedEntrySlots(a)[i].1, SignedEntrySlots(b)[i].1)
  {
    var xs, ys := SignedEntrySlots(a), SignedEntrySlots(b);
    SignedEntryIsPresent(c, a);
    SignedEntryIsPresent(c, b);
    EntrySlotsApart(a);
    EntrySlotsApart(b);
    HashBinds(c, xs, ys, i);
  }

  predicate SameAuthority(a: KeyEntry, b: KeyEntry) {
    a.fingerprint == b.fingerprint && a.publicKey == b.publicKey && a.validFrom == b.validFrom && a.signedBy == b.signedBy
  }

  /** A parent's signature on an entry binds its key, its start of validity and the parent it names, and nothing else. */
  lemma EntryPayloadBinds(c: Suite, a: KeyEntry, b: KeyEntry)
    requires CollisionFree(c)
    ensures EntrySigningPayload(c, a) == EntrySigningPayload(c, b) <==> SameAuthority(a, b)
  {
    if EntrySigningPayload(c, a) == EntrySigningPayload(c, b) {
      SignedEntrySlotFixed(c, a, b, 0);
      SignedEntrySlotFixed(c, a, b, 1);
      SignedEntrySlotFixed(c, a, b, 2);
      SignedEntrySlotFixed(c, a, b, 3);
    }
  }

  lemma RegistrySlotsApart(r: Registry)
    ensures SlotsApart(RegistrySlots(r)) && SlotsWellFormed(RegistrySlots(r))
  {
    NamesTellSlotsApart(RegistrySlots(r), ["registryVersion", "serverId", "active", "keys", "issuedAt", "ttlSeconds"]);
    var items := seq(|r.keys|, i requires 0 <= i < |r.keys| => EntryJson(r.keys[i]));
    forall v | v in items ensures WellFormed(v) {
      var i :| 0 <= i < |items| && items[i] == v;
      EntryWellFormed(r.keys[i]);
    }
  }

  lemma RegistryIsPresent(c: Suite, r: Registry)
    ensures RegistrySigningPayload(c, r) == CanonicalHash(c, Obj(Present(RegistrySlots(r))))
  {
    var slots := RegistrySlots(r);
    PresentPrefix(slots, 0);
    PresentPrefix(slots, 1);
    PresentPrefix(slots, 2);
    PresentPrefix(slots, 3);
    PresentPrefix(slots, 4);
    PresentPrefix(slots, 5);
    assert slots[..6] == slots && slots[..0] == [];
    assert Present(slots) == [
      Field("registryVersion", r.registryVersion), Field("serverId", r.serverId), Field("active", r.active),
      Member(Ascii("keys"), Arr(seq(|r.keys|, i requires 0 <= i < |r.keys| => EntryJson(r.keys[i])))),
      Field("issuedAt", r.issuedAt), Member(Ascii("ttlSeconds"), Leaf(Num(r.ttlSeconds)))];
  }

  lemma RegistrySlotFixed(c: Suite, a: Registry, b: Registry, i: nat)
    requires CollisionFree(c) && RegistrySigningPayload(c, a) == RegistrySigningPayload(c, b) && i < 6
    ensures i < |RegistrySlots(a)| && i < |RegistrySlots(b)| && SameSlot(RegistrySlots(a)[i].1, RegistrySlots(b)[i].1)
  {
    var xs, ys := RegistrySlots(a), RegistrySlots(b);
    RegistryIsPresent(c, a);
    RegistryIsPresent(c, b);
    RegistrySlotsApart(a);
    RegistrySlotsApart(b);
    HashBinds(c, xs, ys, i);
  }

  lemma SignedKeysFixed(c: Suite, a: Registry, b: Registry)
    requires CollisionFree(c) && RegistrySigningPayload(c, a) == RegistrySigningPayload(c, b)
    ensures a.keys == b.keys
  {
    RegistrySlotFixed(c, a, b, 3);
    var xs, ys := RegistrySlots(a)[3].1.value, RegistrySlots(b)[3].1.value;
    assert ForgetItems(xs.items) == ForgetItems(ys.items);
    EntriesFixed(xs.items, ys.items, a.keys, b.keys);
  }

  /** The registry's own signature binds every field of it but the signature, with every field of every entry. */
  lemma RegistryPayloadBinds(c: Suite, a: Registry, b: Registry)
    requires CollisionFree(c)
    ensures RegistrySigningPayload(c, a) == RegistrySigningPayload(c, b) <==> a == b.(signature := a.signature)
  {
    if RegistrySigningPayload(c, a) == RegistrySigningPayload(c, b) {
      SignedKeysFixed(c, a, b);
      RegistrySlotFixed(c, a, b, 0);
      RegistrySlotFixed(c, a, b, 1);
      RegistrySlotFixed(c, a, b, 2);
      RegistrySlotFixed(c, a, b, 4);
      RegistrySlotFixed(c, a, b, 5);
    }
  }

  // ----- What a verified registry means when nobody else can sign -----

  /** Every message that verifies under this key is the payload of one of these registries, or of one of these entries. */
  ghost predicate SignsOnly(c: Suite, sk: Text, registries: iset<Registry>, entries: iset<KeyEntry>) {
    forall m, s :: c.verify(c.publicKeyOf(sk), m, s) ==>
      (exists r :: r in registries && m == RegistrySigningPayload(c, r)) || exists e :: e in entries && m == EntrySigningPayload(c, e)
  }

  /** A registry is never taken for an entry: they have different members. */
  lemma PayloadsApart(c: Suite, r: Registry, e: KeyEntry)
    requires CollisionFree(c)
    ensures RegistrySigningPayload(c, r) != EntrySigningPayload(c, e)
  {
    var xs, ys := RegistrySlots(r), SignedEntrySlots(e);
    RegistryIsPresent(c, r);
    SignedEntryIsPresent(c, e);
    RegistrySlotsApart(r);
    EntrySlotsApart(e);
    PresentWellFormed(xs);
    PresentWellFormed(ys);
    NoKeysInEntry(e);
    KeysInRegistry(r);
    ApartByKey(c, Present(xs), Present(ys), Ascii("keys"));
  }

  lemma ApartByKey(c: Suite, a: seq<Member>, b: seq<Member>, k: Text)
    requires CollisionFree(c) && WellFormedMembers(a) && WellFormedMembers(b)
    requires k != PROTO && Lookup(a, k).Some? && Lookup(b, k).None?
    ensures CanonicalHash(c, Obj(a)) != CanonicalHash(c, Obj(b))
  {
    CanonicalHashBinds(c, Obj(a), Obj(b));
    LookupFinds(a, k);
    LookupFinds(b, k);
    ForgetMembersKeys(a);
    ForgetMembersKeys(b);
    assert k in ForgetMembers(a) && k !in ForgetMembers(b);
  }

  lemma KeysInRegistry(r: Registry)
    ensures Ascii("keys") != PROTO && Lookup(Present(RegistrySlots(r)), Ascii("keys")).Some?
  {
    RegistrySlotsApart(r);
    assert RegistrySlots(r)[3].0 == Ascii("keys");
    PresentLookup(RegistrySlots(r), Ascii("keys"));
  }

  lemma NoKeysInEntry(e: KeyEntry)
    ensures Lookup(Present(SignedEntrySlots(e)), Ascii("keys")) == None
  {
    var slots, k := SignedEntrySlots(e), Ascii("keys");
    EntrySlotsApart(e);
    forall i | 0 <= i < |slots| ensures slots[i].0 != k {
      assert |slots[i].0| != |k|;
    }
    PresentLookup(slots, k);
  }

  /**
   A registry that verifies under an active key which only its owner can use is one that the owner
   signed: version, server, active key, dates and every entry are as they were then.
   */
  lemma VerifiedRegistryWasSigned(c: Suite, r: Registry, i: nat, sk: Text, registries: iset<Registry>, entries: iset<KeyEntry>)
    requires CollisionFree(c) && SignsOnly(c, sk, registries, entries) && Verified(c, r)
    requires i < |r.keys| && r.keys[i].fingerprint == r.active && r.keys[i].publicKey == c.publicKeyOf(sk)
    ensures exists q :: q in registries && r == q.(signature := r.signature)
  {
    var active := ByFingerprint(r.keys, r.active).value;
    LastEntryIsOne(r.keys, r.active);
    assert active in r.keys && r.keys[i] in r.keys;
    assert c.sha(active.publicKey) == c.sha(r.keys[i].publicKey);
    var m := RegistrySigningPayload(c, r);
    assert c.verify(c.publicKeyOf(sk), m, r.signature);
    if e :| e in entries && m == EntrySigningPayload(c, e) {
      PayloadsApart(c, r, e);
    }
    var q :| q in registries && m == RegistrySigningPayload(c, q);
    RegistryPayloadBinds(c, r, q);
  }

  lemma {:induction false} LastEntryIsOne(keys: seq<KeyEntry>, f: Text)
    requires ByFingerprint(keys, f).Some?
    ensures ByFingerprint(keys, f).value in keys && ByFingerprint(keys, f).value.fingerprint == f
    decreases |keys|
  {
    if keys[|keys| - 1].fingerprint != f {
      LastEntryIsOne(keys[..|keys| - 1], f);
    }
  }

  lemma {:induction false} LastEntryOf(keys: seq<KeyEntry>, f: Text)
    ensures ByFingerprint(keys, f).Some? <==> exists i :: 0 <= i < |keys| && keys[i].fingerprint == f
    decreases |keys|
  {
    if keys != [] && keys[|keys| - 1].fingerprint != f {
      var front := keys[..|keys| - 1];
      LastEntryOf(front, f);
      if i :| 0 <= i < |keys| && keys[i].fingerprint == f {
        assert front[i].fingerprint == f;
      }
    }
  }

  /**
   And an entry with a parent whose key only its owner can use was authorised by that owner: the
   key, its start of validity and its parent are as they were then.
   */
  lemma VerifiedEntryWasSigned(c: Suite, r: Registry, i: nat, j: nat, sk: Text, registries: iset<Registry>, entries: iset<KeyEntry>)
    requires CollisionFree(c) && SignsOnly(c, sk, registries, entries) && Verified(c, r)
    requires i < |r.keys| && j < |r.keys| && r.keys[i].signedBy == Some(r.keys[j].fingerprint) && r.keys[j].fingerprint != []
    requires r.keys[j].publicKey == c.publicKeyOf(sk)
    ensures exists e :: e in entries && SameAuthority(r.keys[i], e)
  {
    var entry, f := r.keys[i], r.keys[j].fingerprint;
    assert entry in r.keys && r.keys[j] in r.keys && Vouched(c, r.keys, entry);
    var parent := ByFingerprint(r.keys, f).value;
    LastEntryIsOne(r.keys, f);
    assert c.sha(parent.publicKey) == c.sha(r.keys[j].publicKey);
    var m := EntrySigningPayload(c, entry);
    assert c.verify(c.publicKeyOf(sk), m, entry.signature.value);
    if q :| q in registries && m == RegistrySigningPayload(c, q) {
      PayloadsApart(c, q, entry);
    }
    var e :| e in entries && m == EntrySigningPayload(c, e);
    EntryPayloadBinds(c, entry, e);
  }

  /** Beside the signatures: the version, the digest of every key, an active entry that is there and not revoked. */
  lemma VerifiedRegistryIs(c: Suite, r: Registry)
    requires Verified(c, r)
    ensures r.registryVersion == Ascii("1.0")
    ensures forall i | 0 <= i < |r.keys| :: r.keys[i].fingerprint == c.sha(r.keys[i].publicKey)
    ensures exists i :: 0 <= i < |r.keys| && r.keys[i].fingerprint == r.active && !Truthy(r.keys[i].revokedAt)
    ensures forall i | 0 <= i < |r.keys| && Truthy(r.keys[i].signedBy) ::
      exists j :: 0 <= j < |r.keys| && r.keys[j].fingerprint == r.keys[i].signedBy.value
  {
    forall i | 0 <= i < |r.keys| ensures r.keys[i].fingerprint == c.sha(r.keys[i].publicKey) {
      assert r.keys[i] in r.keys;
    }
    LastEntryIsOne(r.keys, r.active);
    forall i | 0 <= i < |r.keys| && Truthy(r.keys[i].signedBy)
      ensures exists j :: 0 <= j < |r.keys| && r.keys[j].fingerprint == r.keys[i].signedBy.value
    {
      assert r.keys[i] in r.keys && Vouched(c, r.keys, r.keys[i]);
      LastEntryOf(r.keys, r.keys[i].signedBy.value);
    }
  }
}
