/** The registry on file and the commands of the `glyph keys` CLI. */
module KeyCommands {
  import opened Texts
  import opened Crypto
  import opened KeyRegistries

  /** The file, replaced in one step by a rename. */
  class RegistryFile {
    var content: Option<Registry>

    constructor ()
      ensures content == None
    {
      content := None;
    }
  }

  datatype Failure = Missing | VerificationFailed | Unsigned | NoActiveKey | NoSuchKey | KeyIsActive

  /** What the file offers: a registry only if there is one and it verifies. */
  function OnFile(c: Suite, content: Option<Registry>): Result<Registry, Failure> {
    if content.None? then Err(Missing)
    else if Verified(c, content.value) then Ok(content.value)
    else Err(VerificationFailed)
  }

  class FileKeyRegistry {
    const c: Suite
    const file: RegistryFile
    var cache: Option<Registry>

    /** Whatever is cached was verified. */
    ghost predicate Valid()
      reads this
    {
      cache.Some? ==> Verified(c, cache.value)
    }

    constructor (c: Suite, file: RegistryFile)
      ensures Valid() && this.c == c && this.file == file && cache == None
    {
      this.c := c;
      this.file := file;
      cache := None;
    }

    method Load() returns (r: Result<Registry, Failure>)
      requires Valid()
      modifies this
      ensures Valid()
      ensures r == if old(cache).Some? then Ok(old(cache).value) else OnFile(c, file.content)
      ensures cache == if r.Ok? then Some(r.value) else old(cache)
    {
      if cache.Some? {
        return Ok(cache.value);
      }
      if file.content.None? {
        return Err(Missing);
      }
      var ok := VerifyKeyRegistry(c, file.content.value);
      if !ok {
        return Err(VerificationFailed);
      }
      cache := file.content;
      return Ok(file.content.value);
    }

    /** Refuses a registry that does not verify, and then changes nothing. */
    method Save(registry: Registry) returns (r: Result<(), Failure>)
      requires Valid()
      modifies this, file
      ensures Valid()
      ensures r == if Verified(c, registry) then Ok(()) else Err(Unsigned)
      ensures file.content == if r.Ok? then Some(registry) else old(file.content)
      ensures cache == if r.Ok? then Some(registry) else old(cache)
    {
      var ok := VerifyKeyRegistry(c, registry);
      if !ok {
        return Err(Unsigned);
      }
      file.content := Some(registry);
      cache := Some(registry);
      return Ok(());
    }
  }

  method RunKeysInit(c: Suite, d: Dates, file: RegistryFile, serverId: Text, privateKey: Text, now: int, issued: int)
    returns (r: Result<(), Failure>)
    modifies file
    ensures r.Ok? <==> Verified(c, Genesis(c, d, serverId, privateKey, now, issued))
    ensures file.content == if r.Ok? then Some(Genesis(c, d, serverId, privateKey, now, issued)) else old(file.content)
  {
    var entry := BuildKeyEntry(c, c.publicKeyOf(privateKey), d.iso(now), None);
    assert LastLive([entry]) == Some(entry);
    var registry := BuildKeyRegistry(c, d, serverId, [entry], privateKey, issued);
    var source := new FileKeyRegistry(c, file);
    r := source.Save(registry.value);
  }

  method RunKeysRotate(c: Suite, d: Dates, file: RegistryFile, previousKey: Text, newKey: Text, now: int, issued: int)
    returns (r: Result<(), Failure>)
    modifies file
    ensures var current := OnFile(c, old(file.content)); current.Err? ==> r == Err(current.error) && file.content == old(file.content)
    ensures var current := OnFile(c, old(file.content));
      current.Ok? ==> file.content == Some(Next(c, d, current.value, Rotate(previousKey, newKey, now, issued)))
    ensures var current := OnFile(c, old(file.content));
      current.Ok? ==>
        (r.Ok? <==>
         var p := Proposed(c, d, current.value, Rotate(previousKey, newKey, now, issued)); p.Some? && Verified(c, p.value))
  {
    var source := new FileKeyRegistry(c, file);
    var loaded := source.Load();
    if loaded.Err? {
      return Err(loaded.error);
    }
    var current := loaded.value;
    var activeEntry := FirstEntry(current.keys, current.active);
    if activeEntry.None? {
      return Err(NoActiveKey);
    }
    var f := activeEntry.value.fingerprint;
    var newEntry := BuildKeyEntry(c, c.publicKeyOf(newKey), d.iso(now), Some(Parent(f, previousKey)));
    var next := BuildKeyRegistry(c, d, current.serverId, Retire(current.keys, f, d.iso(now)) + [newEntry], newKey, issued);
    if next.None? {
      return Err(NoActiveKey);
    }
    r := source.Save(next.value);
  }

  method RunKeysRevoke(c: Suite, d: Dates, file: RegistryFile, fingerprint: Text, reason: Option<Text>, activeKey: Text,
                       now: int, issued: int)
    returns (r: Result<(), Failure>)
    modifies file
    ensures var current := OnFile(c, old(file.content)); current.Err? ==> r == Err(current.error) && file.content == old(file.content)
    ensures var current := OnFile(c, old(file.content));
      current.Ok? ==> file.content == Some(Next(c, d, current.value, Revoke(fingerprint, reason, activeKey, now, issued)))
    ensures var current := OnFile(c, old(file.content));
      r == Err(NoSuchKey) <==> current.Ok? && FirstEntry(current.value.keys, fingerprint).None?
    ensures var current := OnFile(c, old(file.content));
      r == Err(KeyIsActive) <==> current.Ok? && FirstEntry(current.value.keys, fingerprint).Some? && fingerprint == current.value.active
    ensures var current := OnFile(c, old(file.content));
      current.Ok? ==>
        (r.Ok? <==>
         var p := Proposed(c, d, current.value, Revoke(fingerprint, reason, activeKey, now, issued)); p.Some? && Verified(c, p.value))
  {
    var source := new FileKeyRegistry(c, file);
    var loaded := source.Load();
    if loaded.Err? {
      return Err(loaded.error);
    }
    var current := loaded.value;
    if FirstEntry(current.keys, fingerprint).None? {
      return Err(NoSuchKey);
    }
    if fingerprint == current.active {
      return Err(KeyIsActive);
    }
    var updated := RevokeIn(current.keys, fingerprint, d.iso(now), reason);
    var next := BuildKeyRegistry(c, d, current.serverId, updated, activeKey, issued);
    if next.None? {
      return Err(NoActiveKey);
    }
    r := source.Save(next.value);
  }
}
