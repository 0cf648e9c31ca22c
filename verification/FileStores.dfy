/**
 The file-backed pin store and audit queue, once their cache is loaded. Every change updates the
 cache at once and appends a flush to a promise chain; a flush takes a snapshot of the cache,
 writes it to a temporary file and renames that file into place. Both stores are this machine:
 the pin store only ever puts, the audit queue also removes.
 */
module FileStores {
  import opened Texts

  datatype Op<V> = Put(key: Text, value: V) | Remove(key: Text)

  function ApplyOne<V>(m: map<Text, V>, op: Op<V>): map<Text, V> {
    match op
    case Put(k, v) => m[k := v]
    case Remove(k) => m - {k}
  }

  function Apply<V>(m: map<Text, V>, ops: seq<Op<V>>): map<Text, V> {
    if ops == [] then m else ApplyOne(Apply(m, ops[..|ops| - 1]), ops[|ops| - 1])
  }

  /** A flush under way: its snapshot, how many operations that includes, and whether the temporary file is complete. */
  datatype Flush<V> = Flush(payload: map<Text, V>, taken: nat, written: bool)

  /**
   `chain` lists the operations that appended a flush; the first `done` of these flushes have
   completed. `durable` counts the operations that the file includes, `resolved` holds those whose
   promise has resolved.
   */
  datatype State<V> = State(
    initial: map<Text, V>,
    ops: seq<Op<V>>,
    cache: map<Text, V>,
    chain: seq<nat>,
    done: nat,
    flushing: Option<Flush<V>>,
    broken: bool,
    temp: Option<map<Text, V>>,
    file: Option<map<Text, V>>,
    durable: nat,
    resolved: set<nat>)

  /** `load`: a missing file is an empty map. */
  function Loaded<V>(file: Option<map<Text, V>>): map<Text, V> {
    if file.Some? then file.value else map[]
  }

  /** A crash may have left a temporary file behind. */
  function Start<V>(file: Option<map<Text, V>>, temp: Option<map<Text, V>>): State<V> {
    State(Loaded(file), [], Loaded(file), [], 0, None, false, temp, file, 0, {})
  }

  datatype Step<V> =
    | Change(op: Op<V>)
    | BeginFlush
    | WritePart
    | WriteAll
    | Rename
    | Fail

  /** `cache.delete` found nothing to delete. */
  predicate NothingToRemove<V>(m: map<Text, V>, op: Op<V>) {
    op.Remove? && op.key !in m
  }

  function Next<V>(s: State<V>, step: Step<V>): State<V> {
    match step
    case Change(op) =>
      if NothingToRemove(s.cache, op) then s.(ops := s.ops + [op], resolved := s.resolved + {|s.ops|})
      else s.(
        ops := s.ops + [op],
        cache := ApplyOne(s.cache, op),
        chain := s.chain + [|s.ops|])
    case BeginFlush =>
      if s.broken || s.flushing.Some? || s.done >= |s.chain| then s
      else s.(flushing := Some(Flush(s.cache, |s.ops|, false)))
    case WritePart =>
      if s.flushing.None? || s.flushing.value.written then s else s.(temp := None)
    case WriteAll =>
      if s.flushing.None? then s
      else s.(temp := Some(s.flushing.value.payload), flushing := Some(s.flushing.value.(written := true)))
    case Rename =>
      if s.flushing.None? || !s.flushing.value.written || s.done >= |s.chain| then s
      else s.(file := s.temp, temp := None, durable := s.flushing.value.taken, flushing := None,
              resolved := s.resolved + {s.chain[s.done]}, done := s.done + 1)
    case Fail =>
      if s.flushing.None? then s else s.(flushing := None, broken := true)
  }

  function Run<V>(s: State<V>, steps: seq<Step<V>>): State<V>
    decreases |steps|
  {
    if steps == [] then s else Run(Next(s, steps[0]), steps[1..])
  }

  /** The files, which survive a crash. */
  class Disk<V> {
    var temp: Option<map<Text, V>>
    var file: Option<map<Text, V>>
  }

  class FileStore<V> {
    const disk: Disk<V>
    var cache: map<Text, V>
    var waiting: nat
    var payload: Option<map<Text, V>>
    var rejected: bool
    ghost var state: State<V>

    ghost predicate Valid()
      reads this, disk
    {
      state.cache == cache && state.temp == disk.temp && state.file == disk.file && state.broken == rejected &&
      state.done <= |state.chain| && waiting == |state.chain| - state.done &&
      payload == (if state.flushing.Some? then Some(state.flushing.value.payload) else None)
    }

    /** Loads the file, as the first access does. */
    constructor (disk: Disk<V>)
      ensures Valid() && this.disk == disk && state == Start(disk.file, disk.temp)
    {
      this.disk := disk;
      cache := if disk.file.Some? then disk.file.value else map[];
      waiting, payload, rejected := 0, None, false;
      state := Start(disk.file, disk.temp);
    }

    /** `set` and `enqueue`: the caller's promise is the new end of the chain. */
    method Set(key: Text, value: V)
      requires Valid()
      modifies this
      ensures Valid() && state == Next(old(state), Change(Put(key, value)))
    {
      cache := cache[key := value];
      waiting := waiting + 1;
      state := Next(state, Change(Put(key, value)));
    }

    /** `remove`: without an entry to delete there is nothing to wait for. */
    method Delete(key: Text) returns (waits: bool)
      requires Valid()
      modifies this
      ensures Valid() && state == Next(old(state), Change(Remove(key))) && (waits <==> key in old(cache))
    {
      waits := key in cache;
      if waits {
        cache := cache - {key};
        waiting := waiting + 1;
      }
      state := Next(state, Change(Remove(key)));
    }

    method StartFlush()
      requires Valid() && !rejected && payload.None? && waiting > 0
      modifies this
      ensures Valid() && state == Next(old(state), BeginFlush) && payload == Some(cache)
    {
      payload := Some(cache);
      state := Next(state, BeginFlush);
    }

    method WriteTemp()
      requires Valid() && payload.Some?
      modifies this, disk
      ensures Valid() && state == Next(old(state), WriteAll)
    {
      disk.temp := payload;
      state := Next(state, WriteAll);
    }

    method RenameTemp()
      requires Valid() && payload.Some? && state.flushing.value.written && waiting > 0
      modifies this, disk
      ensures Valid() && state == Next(old(state), Step.Rename)
    {
      disk.file := disk.temp;
      disk.temp := None;
      payload := None;
      waiting := waiting - 1;
      state := Next(state, Step.Rename);
    }

    /** Any of the file operations failed: the chain stays rejected. */
    method Reject()
      requires Valid() && payload.Some?
      modifies this
      ensures Valid() && state == Next(old(state), Fail)
    {
      payload := None;
      rejected := true;
      state := Next(state, Fail);
    }
  }
}
