/**
 * The mapping store of `main` in src/index.ts: the `mapping` record, the
 * `dirty` and `flushing` closure flags, the `newVersions` list, and the
 * write-to-temporary-then-rename flush, with the file on disk as ghost state.
 */
module Store {

  import opened Wrappers
  import opened PackVersion

  /** Version id to its pack formats. */
  type Mapping = map<string, Formats>

  /** The output file: missing, a complete serialized mapping, or text `JSON.parse` rejects. */
  datatype DiskFile = NoFile | Stored(contents: Mapping) | Corrupt

  /** `loadExisting`: a missing file is the empty mapping; a corrupt one is fatal (None). */
  function LoadExisting(file: DiskFile): (r: Option<Mapping>)
    ensures r.None? <==> file.Corrupt?
    ensures file.NoFile? ==> r == Some(map[])
    ensures file.Stored? ==> r == Some(file.contents)
  {
    match file
    case NoFile => Some(map[])
    case Stored(m) => Some(m)
    case Corrupt => None
  }

  class MappingStore {
    var mapping: Mapping
    var dirty: bool
    var flushing: bool
    var newVersions: seq<string>
    /** The output file; the rename makes each write replace it whole. */
    ghost var disk: DiskFile

    /** A flush in progress was started by a dirty store, and merges keep it dirty. */
    ghost predicate Valid()
      reads this
    {
      flushing ==> dirty
    }

    /** Reading the file back gives exactly the in-memory mapping. */
    ghost predicate Synced()
      reads this
    {
      LoadExisting(disk) == Some(mapping)
    }

    /** `const mapping = await loadExisting(outPath)` followed by `dirty = false; flushing = false`. */
    constructor Load(file: DiskFile)
      requires !file.Corrupt?
      ensures Valid() && Synced()
      ensures Some(mapping) == LoadExisting(file) && disk == file
      ensures !dirty && !flushing && newVersions == []
    {
      mapping := LoadExisting(file).value;
      dirty := false;
      flushing := false;
      newVersions := [];
      disk := file;
    }

    /** The success branch of an item: `mapping[v.id] = formats; dirty = true; newVersions.push(v.id)`. */
    method Merge(id: string, formats: Formats)
      requires Valid()
      modifies this
      ensures Valid()
      ensures mapping == old(mapping)[id := formats]
      ensures forall k :: k in old(mapping) && k != id ==> k in mapping && mapping[k] == old(mapping)[k]
      ensures dirty && newVersions == old(newVersions) + [id]
      ensures flushing == old(flushing) && disk == old(disk)
    {
      mapping := mapping[id := formats];
      dirty := true;
      newVersions := newVersions + [id];
    }

    /**
     * `flush` up to its first `await`: return at once unless dirty and not
     * already flushing; otherwise claim the flush and take the snapshot that
     * `JSON.stringify` serializes.
     */
    method FlushBegin() returns (started: bool, snapshot: Mapping)
      requires Valid()
      modifies this
      ensures Valid()
      ensures started == (old(dirty) && !old(flushing))
      ensures started ==> flushing && snapshot == mapping
      ensures !started ==> unchanged(this)
      ensures mapping == old(mapping) && dirty == old(dirty)
      ensures disk == old(disk) && newVersions == old(newVersions)
    {
      if !dirty || flushing {
        return false, map[];
      }
      flushing := true;
      started, snapshot := true, mapping;
    }

    /**
     * `flush` after the rename: the file now holds the snapshot, and both
     * flags are cleared, even if merges arrived since the snapshot.
     */
    method FlushEnd(snapshot: Mapping)
      requires Valid() && flushing
      modifies this
      ensures Valid()
      ensures disk == Stored(snapshot) && !dirty && !flushing
      ensures mapping == old(mapping) && newVersions == old(newVersions)
      ensures Synced() <==> mapping == snapshot
    {
      disk := Stored(snapshot);
      dirty := false;
      flushing := false;
    }

    /** A whole `flush()` with no merge between its two halves. */
    method Flush()
      requires Valid()
      modifies this
      ensures Valid()
      ensures old(dirty) && !old(flushing) ==> disk == Stored(old(mapping)) && !dirty && !flushing && Synced()
      ensures !(old(dirty) && !old(flushing)) ==> unchanged(this)
      ensures mapping == old(mapping) && newVersions == old(newVersions)
    {
      var started, snapshot := FlushBegin();
      if started {
        FlushEnd(snapshot);
      }
    }
  }

  /**
   * A merge that lands while a flush is between its snapshot and its rename
   * stays in memory only, yet the store ends clean: the flag is cleared
   * unconditionally by the flush that began before it.
   */
  method LateMergeIsNotPersisted(first: string, second: string, f1: Formats, f2: Formats)
    returns (store: MappingStore)
    requires first != second
    ensures !store.dirty && !store.flushing
    ensures store.mapping == map[first := f1, second := f2]
    ensures store.disk == Stored(map[first := f1]) && !store.Synced()
  {
    store := new MappingStore.Load(NoFile);
    store.Merge(first, f1);
    var started, snapshot := store.FlushBegin();
    store.Merge(second, f2);
    store.FlushEnd(snapshot);
    assert second !in snapshot;
  }

  /** A second flush requested while one is in progress is ignored, not queued. */
  method ConcurrentFlushIsIgnored(id: string, f: Formats) returns (secondStarted: bool)
    ensures !secondStarted
  {
    var store := new MappingStore.Load(NoFile);
    store.Merge(id, f);
    var started, snapshot := store.FlushBegin();
    var again, _ := store.FlushBegin();
    secondStarted := again;
    store.FlushEnd(snapshot);
  }
}
