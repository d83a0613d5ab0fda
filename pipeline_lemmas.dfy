/** Properties of the run specification `Pipeline.Expected` and of its parts. */
module PipelineLemmas {

  import opened Wrappers
  import opened PackVersion
  import opened Planner
  import opened Store
  import opened Pipeline

  /** A key that no completion touches keeps its value. */
  lemma {:induction false} MergedPreserves(m: Mapping, done: seq<CatalogEntry>, network: Network, key: string)
    requires key in m
    requires forall j :: 0 <= j < |done| ==> done[j].id != key
    ensures key in Merged(m, done, network) && Merged(m, done, network)[key] == m[key]
  {
    if done != [] {
      MergedPreserves(m, done[..|done| - 1], network, key);
    }
  }

  /** The keys after the completions are the keys before plus the successful ids. */
  lemma {:induction false} MergedKeys(m: Mapping, done: seq<CatalogEntry>, network: Network)
    ensures Merged(m, done, network).Keys == m.Keys + (set id | id in Succeeded(done, network))
  {
    if done != [] {
      MergedKeys(m, done[..|done| - 1], network);
    }
  }

  /** Every recorded id belongs to a completion whose archive decoded. */
  lemma {:induction false} SucceededSound(done: seq<CatalogEntry>, network: Network, id: string)
    requires id in Succeeded(done, network)
    ensures exists j :: 0 <= j < |done| && done[j].id == id && ItemOutcome(network, done[j]).Some?
  {
    var prefix := done[..|done| - 1];
    if id in Succeeded(prefix, network) {
      SucceededSound(prefix, network, id);
      var j :| 0 <= j < |prefix| && prefix[j].id == id && ItemOutcome(network, prefix[j]).Some?;
      assert done[j] == prefix[j];
    } else {
      assert done[|done| - 1].id == id;
    }
  }

  /** Every completion whose archive decoded is recorded: one failure does not hide a sibling. */
  lemma {:induction false} SucceededComplete(done: seq<CatalogEntry>, network: Network, j: nat)
    requires j < |done| && ItemOutcome(network, done[j]).Some?
    ensures done[j].id in Succeeded(done, network)
  {
    if j < |done| - 1 {
      SucceededComplete(done[..|done| - 1], network, j);
    }
  }

  /** With distinct ids, each successful entry maps to exactly the formats its archive decoded to. */
  lemma {:induction false} MergedValue(m: Mapping, done: seq<CatalogEntry>, network: Network, j: nat)
    requires j < |done| && ItemOutcome(network, done[j]).Some?
    requires forall x, y :: 0 <= x < y < |done| ==> done[x].id != done[y].id
    ensures done[j].id in Merged(m, done, network)
    ensures Merged(m, done, network)[done[j].id] == ItemOutcome(network, done[j]).value
  {
    var n := |done| - 1;
    if j < n {
      MergedValue(m, done[..n], network, j);
    }
  }

  /** Completions that all fail change neither the mapping nor `newVersions`. */
  lemma {:induction false} NothingSucceeds(m: Mapping, done: seq<CatalogEntry>, network: Network)
    requires forall j :: 0 <= j < |done| ==> ItemOutcome(network, done[j]).None?
    ensures Merged(m, done, network) == m && Succeeded(done, network) == []
  {
    if done != [] {
      NothingSucceeds(m, done[..|done| - 1], network);
    }
  }

  /** A remainder by a larger divisor is the number itself. */
  lemma SmallRemainder(k: nat, n: nat)
    requires k < n
    ensures k % n == k
  {
  }

  /** Removing the matching first element from both sides of a permutation leaves a permutation. */
  lemma RemoveMatched<T>(s: seq<T>, t: seq<T>, k: nat)
    requires multiset(t) == multiset(s) && k < |s| && 0 < |t| && s[k] == t[0]
    ensures multiset(s[..k] + s[k + 1..]) == multiset(t[1..])
  {
    assert s == s[..k] + [s[k]] + s[k + 1..];
    assert t == [t[0]] + t[1..];
    var rest := s[..k] + s[k + 1..];
    assert multiset(rest) + multiset{t[0]} == multiset(s);
    assert multiset(rest) == multiset(s) - multiset{t[0]};
  }

  /**
   * Every permutation of the plan is a completion order the pool can
   * produce: `choices` records, step by step, the position of the next
   * completed entry among those still pending.
   */
  lemma {:induction false} EveryOrderIsReachable(pending: seq<CatalogEntry>, order: seq<CatalogEntry>)
    returns (choices: seq<nat>)
    requires multiset(order) == multiset(pending)
    ensures CompletionOrder(pending, choices) == order
    decreases |pending|
  {
    if pending == [] {
      assert |order| == |multiset(order)| == 0;
      return [];
    }
    assert |order| == |multiset(order)| == |multiset(pending)| == |pending|;
    assert order[0] in multiset(pending);
    var k :| 0 <= k < |pending| && pending[k] == order[0];
    RemoveMatched(pending, order, k);
    var rest := pending[..k] + pending[k + 1..];
    var tail := EveryOrderIsReachable(rest, order[1..]);
    choices := [k] + tail;
    assert choices[0] % |pending| == k by {
      assert choices[0] == k;
      SmallRemainder(k, |pending|);
    }
    calc {
      CompletionOrder(pending, choices);
      [pending[k]] + CompletionOrder(rest, choices[1..]);
      { assert choices[1..] == tail; }
      [order[0]] + order[1..];
      order;
    }
  }

  /** An unknown cutoff fails the run before any item is queued: mapping and file are untouched. */
  lemma UnknownCutoffIsFatal(inp: Inputs)
    requires LoadExisting(inp.file).Some?
    requires FindReference(inp.catalog, CutoffId(inp.cutoffInput)) == None
    ensures Expected(inp).exit == Failed(UnknownCutoff(CutoffId(inp.cutoffInput)))
    ensures ExitStatus(Expected(inp).exit) == 1
    ensures Expected(inp).mapping == LoadExisting(inp.file).value && Expected(inp).disk == inp.file
  {
  }

  /** Entries present before the run keep their values: processing only adds absent keys. */
  lemma RunKeepsExistingEntries(inp: Inputs, key: string)
    requires LoadExisting(inp.file).Some? && key in LoadExisting(inp.file).value
    ensures key in Expected(inp).mapping && Expected(inp).mapping[key] == LoadExisting(inp.file).value[key]
  {
    var initial := LoadExisting(inp.file).value;
    var cutoff := CutoffId(inp.cutoffInput);
    var reference := FindReference(inp.catalog, cutoff);
    if reference.Some? {
      var planned := Pending(inp.catalog, initial.Keys, DateOf(inp.catalog[reference.value]));
      var order := CompletionOrder(planned, inp.choices);
      var done := order[..FirstAbort(order, inp.network)];
      forall j | 0 <= j < |done| ensures done[j].id != key {
        assert done[j] in multiset(planned);
        PendingMembership(inp.catalog, initial.Keys, DateOf(inp.catalog[reference.value]), done[j]);
      }
      MergedPreserves(initial, done, inp.network, key);
    }
  }

  /**
   * A completed run's mapping is the loaded one plus exactly the reported
   * new versions, none of which was mapped before.
   */
  lemma RunAddsExactlyNewVersions(inp: Inputs)
    requires Expected(inp).exit.Completed?
    ensures LoadExisting(inp.file).Some?
    ensures var initial := LoadExisting(inp.file).value;
            && Expected(inp).mapping.Keys == initial.Keys + (set id | id in Expected(inp).exit.newVersions)
            && forall id :: id in Expected(inp).exit.newVersions ==> id !in initial
  {
    var initial := LoadExisting(inp.file).value;
    var reference := FindReference(inp.catalog, CutoffId(inp.cutoffInput)).value;
    var ref := DateOf(inp.catalog[reference]);
    var planned := Pending(inp.catalog, initial.Keys, ref);
    var order := CompletionOrder(planned, inp.choices);
    assert Expected(inp) == Completions(initial, order, inp);
    var done := order[..FirstAbort(order, inp.network)];
    assert Expected(inp).exit.newVersions == Succeeded(done, inp.network);
    assert Expected(inp).mapping == Merged(initial, done, inp.network);
    MergedKeys(initial, done, inp.network);
    forall id | id in Succeeded(done, inp.network) ensures id !in initial {
      SucceededSound(done, inp.network, id);
      var j :| 0 <= j < |done| && done[j].id == id && ItemOutcome(inp.network, done[j]).Some?;
      assert done[j] in multiset(planned);
      PendingMembership(inp.catalog, initial.Keys, ref, done[j]);
    }
  }

  /**
   * In the model's sequential run, whatever its end (success or an aborting
   * descriptor failure), reading the output file back gives the mapping in
   * memory: completed work is never lost. The source's concurrent handlers
   * can abandon that write (an overlapping flush request exits first).
   */
  lemma RunIsDurable(inp: Inputs)
    requires !inp.file.Corrupt?
    ensures LoadExisting(Expected(inp).disk) == Some(Expected(inp).mapping)
  {
    var initial := LoadExisting(inp.file).value;
    var reference := FindReference(inp.catalog, CutoffId(inp.cutoffInput));
    if reference.Some? {
      var ref := DateOf(inp.catalog[reference.value]);
      var order := CompletionOrder(Pending(inp.catalog, initial.Keys, ref), inp.choices);
      var done := order[..FirstAbort(order, inp.network)];
      if Succeeded(done, inp.network) == [] {
        MergedKeys(initial, done, inp.network);
        forall j | 0 <= j < |done| ensures ItemOutcome(inp.network, done[j]).None? {
          if ItemOutcome(inp.network, done[j]).Some? {
            SucceededComplete(done, inp.network, j);
          }
        }
        NothingSucceeds(initial, done, inp.network);
      }
    }
  }

  /** A completed run publishes exactly when it added a version, commits are enabled and a token is present. */
  lemma RunPublishesWhatItAdded(inp: Inputs)
    requires Expected(inp).exit.Completed?
    ensures Expected(inp).exit.didUpdate == (Expected(inp).exit.newVersions != [])
    ensures Expected(inp).exit.published == (Expected(inp).exit.newVersions != [] && inp.commitEnabled && inp.hasToken)
    ensures Expected(inp).exit.didUpdate ==> Expected(inp).disk == Stored(Expected(inp).mapping)
  {
  }

  /** Completions that all fail in isolation leave everything as loaded. */
  lemma CompletionsAddNothing(initial: Mapping, order: seq<CatalogEntry>, inp: Inputs)
    requires forall j :: 0 <= j < |order| ==> !Aborts(inp.network, order[j]) && ItemOutcome(inp.network, order[j]).None?
    ensures Completions(initial, order, inp) == RunResult(Completed([], false, false), initial, inp.file)
  {
    assert FirstAbort(order, inp.network) == |order|;
    assert order[..|order|] == order;
    NothingSucceeds(initial, order, inp.network);
  }

  /**
   * After a run that completed every item of its plan, an entry planned
   * against the updated keys is one that was planned before and failed.
   */
  lemma ReplannedItemsFailAgain(planned: seq<CatalogEntry>, order: seq<CatalogEntry>, network: Network,
                                ref: Option<int>, e: CatalogEntry)
    requires multiset(order) == multiset(planned)
    requires FirstAbort(order, network) == |order|
    requires e in Pending(planned, (set id | id in Succeeded(order, network)), ref)
    ensures !Aborts(network, e) && ItemOutcome(network, e).None?
  {
    PendingMembership(planned, (set id | id in Succeeded(order, network)), ref, e);
    assert e in multiset(order);
    var x :| 0 <= x < |order| && order[x] == e;
    if ItemOutcome(network, e).Some? {
      SucceededComplete(order, network, x);
    }
  }

  /**
   * Idempotence: running again on the file a completed run left, with the
   * same catalog and network and in any completion order, adds nothing,
   * publishes nothing and leaves mapping and file as they were.
   */
  lemma SecondRunAddsNothing(inp: Inputs, choices: seq<nat>)
    requires Expected(inp).exit.Completed?
    ensures var again := Expected(inp.(file := Expected(inp).disk, choices := choices));
            && again.exit == Completed([], false, false)
            && again.mapping == Expected(inp).mapping
            && again.disk == Expected(inp).disk
  {
    var first := Expected(inp);
    var initial := LoadExisting(inp.file).value;
    var k := FindReference(inp.catalog, CutoffId(inp.cutoffInput)).value;
    var ref := DateOf(inp.catalog[k]);
    var planned := Pending(inp.catalog, initial.Keys, ref);
    var order := CompletionOrder(planned, inp.choices);
    assert first == Completions(initial, order, inp);
    assert FirstAbort(order, inp.network) == |order|;
    assert order[..|order|] == order;
    var final := Merged(initial, order, inp.network);
    assert first.mapping == final;

    RunIsDurable(inp);
    var inp2 := inp.(file := first.disk, choices := choices);
    assert LoadExisting(inp2.file) == Some(final);

    var succeeded := set id | id in Succeeded(order, inp.network);
    MergedKeys(initial, order, inp.network);
    PendingCompose(inp.catalog, initial.Keys, succeeded, ref);
    var planned2 := Pending(inp.catalog, final.Keys, ref);
    assert planned2 == Pending(planned, succeeded, ref);
    var order2 := CompletionOrder(planned2, choices);
    assert Expected(inp2) == Completions(final, order2, inp2);
    forall j | 0 <= j < |order2|
      ensures !Aborts(inp.network, order2[j]) && ItemOutcome(inp.network, order2[j]).None?
    {
      assert order2[j] in multiset(planned2);
      ReplannedItemsFailAgain(planned, order, inp.network, ref, order2[j]);
    }
    CompletionsAddNothing(final, order2, inp2);
  }
}
