/**
 * One run of the action (`main` in src/index.ts) with the network, the
 * clock and the worker pool replaced by inputs: load the mapping, find the
 * cutoff, plan, complete the planned items in an arbitrary order, flush,
 * and decide whether to publish.
 */
module Pipeline {

  import opened Wrappers
  import Json
  import opened PackVersion
  import opened Concurrency
  import opened Planner
  import opened Store

  /** The client archive download for one item (inside the `try`). */
  datatype JarFetch =
    | JarUnavailable    // a failed fetch, a descriptor without `downloads.client.url`, or bytes that are no archive
    | Jar(archive: Archive)

  /** Everything the network answers for one catalog entry. */
  datatype Fetch =
    | DescriptorUnavailable   // `fetchJSON(v.url)` rejects, outside the `try`
    | Descriptor(jar: JarFetch)

  type Network = CatalogEntry -> Fetch

  /** The reasons a run ends with exit status 1. */
  datatype RunError =
    | CorruptMapping                 // `JSON.parse` of the existing output file throws
    | UnknownCutoff(cutoff: string)  // no catalog entry has the cutoff id
    | InvalidConcurrency(limit: int) // the worker pool refuses a limit below 1
    | DescriptorFetchFailed(id: string) // an unhandled rejection: flush, then exit

  datatype Exit =
    | Completed(newVersions: seq<string>, published: bool, didUpdate: bool)
    | Failed(reason: RunError)

  /** `process.exit`: 0 for a completed run, 1 for every failure the model covers. */
  function ExitStatus(exit: Exit): (r: int)
    ensures r == 0 <==> exit.Completed?
    ensures r == 0 || r == 1
  {
    if exit.Completed? then 0 else 1
  }

  /** The inputs of one run; `choices` picks the completion order. */
  datatype Inputs = Inputs(
    file: DiskFile,
    catalog: seq<CatalogEntry>,
    cutoffInput: string,
    requested: Option<int>,
    cpuCount: nat,
    totalMem: nat,
    network: Network,
    choices: seq<nat>,
    commitEnabled: bool,
    hasToken: bool)

  /** The observable end of a run: how it exits, the mapping in memory, the output file. */
  datatype RunResult = RunResult(exit: Exit, mapping: Mapping, disk: DiskFile)

  /** The `try` block of one item: the formats to merge, or None when the failure was caught. */
  function Resolve(jar: JarFetch): (r: Option<Formats>)
    ensures jar.JarUnavailable? ==> r.None?
    ensures jar.Jar? && MetadataName !in jar.archive ==> r.None?
    ensures r.Some? <==> jar.Jar? && ExtractPackVersion(jar.archive).Success?
    ensures r.Some? ==> ExtractPackVersion(jar.archive) == Success(r.value)
  {
    match jar
    case JarUnavailable => None
    case Jar(archive) =>
      match ExtractPackVersion(archive)
      case Success(formats) => Some(formats)
      case Failure(_) => None
  }

  predicate Aborts(network: Network, e: CatalogEntry)
  {
    network(e).DescriptorUnavailable?
  }

  /** What completing entry e merges; None for an isolated failure (and for an abort). */
  function ItemOutcome(network: Network, e: CatalogEntry): Option<Formats>
  {
    match network(e)
    case DescriptorUnavailable => None
    case Descriptor(jar) => Resolve(jar)
  }

  /**
   * The order in which the pool completes the pending entries: each step
   * completes the entry `choices[i]` (modulo what is left) picks, or the
   * first one once the choices run out.
   */
  function CompletionOrder(pending: seq<CatalogEntry>, choices: seq<nat>): (r: seq<CatalogEntry>)
    ensures multiset(r) == multiset(pending)
    ensures |r| == |pending|
    decreases |pending|
  {
    if pending == [] then []
    else
      var k := if choices == [] then 0 else choices[0] % |pending|;
      var rest := pending[..k] + pending[k + 1..];
      assert pending == pending[..k] + [pending[k]] + pending[k + 1..];
      [pending[k]] + CompletionOrder(rest, if choices == [] then [] else choices[1..])
  }

  /** The position of the first completion whose descriptor fetch fails, or |order|. */
  function FirstAbort(order: seq<CatalogEntry>, network: Network): (k: nat)
    ensures k <= |order|
    ensures forall j :: 0 <= j < k ==> !Aborts(network, order[j])
    ensures k < |order| ==> Aborts(network, order[k])
  {
    if order == [] then 0
    else if Aborts(network, order[0]) then 0
    else 1 + FirstAbort(order[1..], network)
  }

  /** The mapping after the completions `done`, in that order. */
  function Merged(m: Mapping, done: seq<CatalogEntry>, network: Network): Mapping
  {
    if done == [] then m
    else
      var e := done[|done| - 1];
      var before := Merged(m, done[..|done| - 1], network);
      match ItemOutcome(network, e)
      case Some(formats) => before[e.id := formats]
      case None => before
  }

  /** `newVersions` after the completions `done`: the successful ids, in completion order. */
  function Succeeded(done: seq<CatalogEntry>, network: Network): seq<string>
  {
    if done == [] then []
    else
      var e := done[|done| - 1];
      Succeeded(done[..|done| - 1], network) + (if ItemOutcome(network, e).Some? then [e.id] else [])
  }

  /** The end of a run whose cutoff was found, given the loaded mapping and the completion order. */
  function Completions(initial: Mapping, order: seq<CatalogEntry>, inp: Inputs): RunResult
  {
    var a := FirstAbort(order, inp.network);
    var final := Merged(initial, order[..a], inp.network);
    var added := Succeeded(order[..a], inp.network);
    var disk := if added == [] then inp.file else Stored(final);
    if a < |order| then RunResult(Failed(DescriptorFetchFailed(order[a].id)), final, disk)
    else RunResult(Completed(added, added != [] && inp.commitEnabled && inp.hasToken, added != []), final, disk)
  }

  /** What a run does, stated as a function of its inputs. */
  function Expected(inp: Inputs): RunResult
  {
    match LoadExisting(inp.file)
    case None => RunResult(Failed(CorruptMapping), map[], inp.file)
    case Some(initial) =>
      var cutoff := CutoffId(inp.cutoffInput);
      match FindReference(inp.catalog, cutoff)
      case None => RunResult(Failed(UnknownCutoff(cutoff)), initial, inp.file)
      case Some(k) =>
        var limit := EffectiveConcurrency(inp.requested, inp.cpuCount, inp.totalMem);
        if limit < 1 then RunResult(Failed(InvalidConcurrency(limit)), initial, inp.file)
        else Completions(initial, CompletionOrder(Pending(inp.catalog, initial.Keys, DateOf(inp.catalog[k])), inp.choices), inp)
  }

  /** The work queued for one entry, once its descriptor has arrived. */
  method ProcessItem(store: MappingStore, id: string, jar: JarFetch)
    requires store.Valid()
    modifies store
    ensures store.Valid()
    ensures Resolve(jar).Some? ==>
              && store.mapping == old(store.mapping)[id := Resolve(jar).value]
              && store.newVersions == old(store.newVersions) + [id]
              && store.dirty && store.flushing == old(store.flushing) && store.disk == old(store.disk)
    ensures Resolve(jar).None? ==> unchanged(store)
  {
    match jar
    case JarUnavailable =>
      // the fetch failure is caught and logged
    case Jar(archive) =>
      var formats := ExtractPackVersion(archive);
      if formats.Success? {
        store.Merge(id, formats.value);
      }
  }

  /**
   * Lines 201-210 as written: the final flush clears `dirty`, and only then
   * is `dirty` read for the publish gate and for `did_update`. Only a flush
   * already in progress (which returns at once) leaves `dirty` set.
   */
  method FinishAsWritten(store: MappingStore, commitEnabled: bool, hasToken: bool)
    returns (published: bool, didUpdate: bool)
    requires store.Valid()
    modifies store
    ensures store.Valid()
    ensures !old(store.flushing) ==> !published && !didUpdate
    ensures old(store.flushing) ==> didUpdate && published == (commitEnabled && hasToken)
    ensures store.mapping == old(store.mapping) && store.newVersions == old(store.newVersions)
  {
    store.Flush();
    published := store.dirty && commitEnabled && hasToken;
    didUpdate := store.dirty;
  }

  /** A run that adds a version, with commits enabled and a token, still neither publishes nor reports an update. */
  method PublishGateCounterexample() returns (added: seq<string>, published: bool, didUpdate: bool)
    ensures added == ["1.21"] && !published && !didUpdate
  {
    var store := new MappingStore.Load(NoFile);
    store.Merge("1.21", Formats(Value(Json.JNumber(48.0)), Value(Json.JNumber(34.0))));
    published, didUpdate := FinishAsWritten(store, true, true);
    added := store.newVersions;
  }

  /** Lines 201-210 as intended: whether this run added anything is read before the flush clears it. */
  method FinishCorrected(store: MappingStore, commitEnabled: bool, hasToken: bool)
    returns (published: bool, didUpdate: bool)
    requires store.Valid() && !store.flushing
    modifies store
    ensures store.Valid() && !store.dirty && !store.flushing
    ensures didUpdate == old(store.dirty)
    ensures published == (old(store.dirty) && commitEnabled && hasToken)
    ensures old(store.dirty) ==> store.disk == Stored(store.mapping)
    ensures !old(store.dirty) ==> store.disk == old(store.disk)
    ensures store.mapping == old(store.mapping) && store.newVersions == old(store.newVersions)
  {
    var updated := store.dirty;
    store.Flush();
    published := updated && commitEnabled && hasToken;
    didUpdate := updated;
  }

  /**
   * The pool's completion callbacks, one at a time in the order given, up to
   * the first item whose descriptor fetch fails; returns that position, or
   * |order| when every item completed.
   */
  method CompleteInOrder(store: MappingStore, order: seq<CatalogEntry>, network: Network) returns (a: nat)
    requires store.Valid() && !store.flushing && !store.dirty && store.newVersions == [] && store.Synced()
    modifies store
    ensures a == FirstAbort(order, network)
    ensures store.Valid() && !store.flushing && store.disk == old(store.disk)
    ensures store.mapping == Merged(old(store.mapping), order[..a], network)
    ensures store.newVersions == Succeeded(order[..a], network)
    ensures store.dirty == (store.newVersions != [])
    ensures !store.dirty ==> store.Synced()
  {
    ghost var initial := store.mapping;
    a := 0;
    while a < |order|
      invariant 0 <= a <= |order|
      invariant forall j :: 0 <= j < a ==> !Aborts(network, order[j])
      invariant store.Valid() && !store.flushing && store.disk == old(store.disk)
      invariant store.mapping == Merged(initial, order[..a], network)
      invariant store.newVersions == Succeeded(order[..a], network)
      invariant store.dirty == (store.newVersions != [])
      invariant !store.dirty ==> store.Synced()
    {
      assert order[..a + 1][..a] == order[..a];
      match network(order[a])
      case DescriptorUnavailable =>
        return;
      case Descriptor(jar) =>
        ProcessItem(store, order[a].id, jar);
      a := a + 1;
    }
  }

  /** One run of `main`, proved against `Expected`. */
  method Run(inp: Inputs) returns (exit: Exit, store: MappingStore?)
    ensures exit == Expected(inp).exit
    ensures (store == null) == inp.file.Corrupt?
    ensures store != null ==> && store.mapping == Expected(inp).mapping
                              && store.disk == Expected(inp).disk
                              && store.Synced() && !store.flushing
    ensures exit.Completed? ==> exit.newVersions == store.newVersions
  {
    var loaded := LoadExisting(inp.file);
    if loaded.None? {
      return Failed(CorruptMapping), null;
    }
    store := new MappingStore.Load(inp.file);
    var cutoff := CutoffId(inp.cutoffInput);
    var reference := FindReference(inp.catalog, cutoff);
    if reference.None? {
      return Failed(UnknownCutoff(cutoff)), store;
    }
    var referenceTime := DateOf(inp.catalog[reference.value]);
    var limit := EffectiveConcurrency(inp.requested, inp.cpuCount, inp.totalMem);
    if limit < 1 {
      return Failed(InvalidConcurrency(limit)), store;
    }
    var planned := PlanUpdates(inp.catalog, store.mapping.Keys, referenceTime);
    var order := CompletionOrder(planned, inp.choices);
    var a := CompleteInOrder(store, order, inp.network);
    if a < |order| {
      // the unhandled rejection handler flushes, then exits with status 1
      store.Flush();
      return Failed(DescriptorFetchFailed(order[a].id)), store;
    }
    var published, didUpdate := FinishCorrected(store, inp.commitEnabled, inp.hasToken);
    exit := Completed(store.newVersions, published, didUpdate);
  }
}
