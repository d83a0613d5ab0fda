# Pack-version mapping updater, modelled in Dafny

A GitHub Action (`src/index.ts`) keeps a file that maps every game version id
to its `{datapack, resourcepack}` pack formats. In each run it loads the file
(a missing file counts as empty). It fetches the version manifest, finds the
cutoff version (default `18w47a`) and queues every version that is not yet
mapped and not older than the cutoff. Each queued version's client archive is
opened and its `version.json` decoded. Every success is merged into the
mapping and marks it dirty. Finally the mapping is flushed atomically and a
pull request may be published.

The model has these parts:

- `PackVersion` is the decoder (`extractPackVersion`, `normalize`). It works on
  an archive given as a map from entry names to parsed JSON.
- `Concurrency` is the default worker count and the `concurrency` override.
- `Planner` holds the cutoff lookup, the planning loop (the imperative method
  `PlanUpdates`) and its specification `Pending`.
- `Store` is the `MappingStore` class. Its fields are `mapping`, `dirty`,
  `flushing` and `newVersions`, and the output file is a ghost field `disk`.
  The flush is split into `FlushBegin`, which takes the snapshot, and
  `FlushEnd`, which does the rename and clears the flags.
- `Pipeline` has `Run`, one sequential run of `main` with the publish gate of
  `FinishCorrected` (see "## Findings"); the gate as written is
  `FinishAsWritten`. `Run` is proved equal to the pure function `Expected`. The worker pool is replaced by a completion
  order that `choices` selects. Every such order is a permutation of the plan,
  and every permutation is selected by some `choices`.
- `PipelineLemmas` proves properties of `Expected`: existing entries are kept,
  the key set grows by exactly the new versions, nothing completed is lost, and
  a second run adds nothing.

The manifest, descriptor and archive downloads are parameters of `Run`:
`catalog` is the manifest and `network` answers each entry's downloads. The
input file's contents are `file`. The host's CPU count and total memory are
`cpuCount` and `totalMem`. Whether a token is configured is `hasToken`.

Two behaviours of the source that a reader may not expect, which the model
follows:

- A `pack_version` object of an unknown shape is not an error in the source.
  It goes down the major/minor branch and yields NaN.
- A negative `concurrency` input is not clamped. It reaches the worker pool,
  whose constructor rejects any limit below 1, and the run fails.

## Model

| member | source | states |
|---|---|---|
| `Json.Field` | src/index.ts:61-72 | definition, no contract: property access `obj.name`, `undefined` unless obj is an object holding that key |
| `Concurrency.AutoConcurrency` | src/index.ts:10-23 | result is in [1, 8], is at most the CPU count when that is at least 1 and at most floor(totalmem / 80 MiB) when that is at least 1, equals one of the three bounds when both are at least 1, and is 1 when either bound is 0 |
| `Concurrency.EffectiveConcurrency` | src/index.ts:152-157 | a nonzero requested number overrides the default; zero, empty or non-numeric input falls back to `autoConcurrency`, which lies in [1, 8] |
| `PackVersion.ExtractPackVersion` | src/index.ts:53-57 | fails with MissingMetadata exactly when the archive has no `version.json`, and with MalformedJson exactly when that entry does not parse |
| `PackVersion.DecodePackVersion` | src/index.ts:61-72 | fails (a TypeError) exactly when the document is null, lacks `pack_version`, or its `pack_version` is null, a boolean or a string; numbers, objects and arrays always decode |
| `PackVersion.ToNumber` | src/index.ts:68 | `Number(v)` is NaN exactly for `undefined`, strings, arrays and objects; null gives 0, booleans 0 or 1, and a number is kept |
| `PackVersion.Normalize` | src/index.ts:68 | for minor 0 the value is `Number(major)`; any other non-NaN value is the decimal `major.minor` of an integer major and a positive integer minor |
| `PackVersion.NumberShape` | src/index.ts:61-63 | a numeric `pack_version` n decodes to `{n, n}` |
| `PackVersion.DataResourceShape` | src/index.ts:64-66 | an object with both `data` and `resource` decodes to those two values unchanged |
| `PackVersion.MajorMinorShape` | src/index.ts:67-72 | with integer fields, each side is the major when its minor is 0 and the decimal `major.minor` otherwise |
| `PackVersion.ShapesAgree` | src/index.ts:61-72 | for any number n, the bare n, `{data: n, resource: n}` and `{n, 0, n, 0}` all decode to `{n, n}` |
| `PackVersion.DigitsBound` | src/index.ts:68 | a positive minor's printed digit count d satisfies 10^(d-1) <= minor < 10^d |
| `PackVersion.DecimalIntegerPart` | src/index.ts:68 | the decimal `major.minor` keeps the major as its integer part with a fraction strictly between 0 and 1, on the major's side of zero |
| `PackVersion.TrailingZeroCollapses` | src/index.ts:68 | minor 10k and minor k give the same value, so "5.10" equals "5.1" |
| `PackVersion.MajorMinorExamples` | src/index.ts:68 | `{5, 2}` gives 5.2, `{6, 1}` gives 6.1, and minors 10 and 1 both give 5.1 |
| `Planner.CutoffId` | src/index.ts:132-135 | an empty input selects `18w47a`, any other input is used as given, so the cutoff is never empty |
| `Planner.DateOf` | src/index.ts:167 | as for the reference date at line 149, a parsable `releaseTime` is the date; an unparsable one is an Invalid Date without falling back; an absent one falls back to `time` |
| `Planner.Earlier` | src/index.ts:168 | a comparison with an Invalid Date on either side is false; otherwise it is the order of the two instants |
| `Planner.FindReference` | src/index.ts:132-137 | returns the position of the first catalog entry whose id equals the cutoff, or None when no entry matches |
| `Planner.PlanUpdates` | src/index.ts:164-173 | the loop queues exactly `Pending`: in catalog order, every entry whose id is unmapped and whose date is not before the reference |
| `Planner.PendingAppend` | src/index.ts:164-174 | planning a concatenation is the concatenation of the plans, so catalog order is kept |
| `Planner.PendingMembership` | src/index.ts:164-173 | an entry is planned iff it is in the catalog, its id is unmapped and its date is not strictly earlier than the reference (an Invalid Date is never earlier) |
| `Planner.KnownNeverPlanned` | src/index.ts:165 | an already-mapped id is never planned, whatever its timestamp |
| `Planner.PendingCompose` | src/index.ts:149-173 | filtering a plan by further known ids equals planning against the union of the known ids |
| `Planner.ReplanIsEmpty` | src/index.ts:149-173 | once every planned id is mapped, re-planning gives the empty list |
| `Planner.CutoffFiltering` | src/index.ts:149-173 | with dates T1 < T2 < T3 and the T2 entry as reference, the plan is the T2 and T3 entries |
| `Store.LoadExisting` | src/index.ts:34-38 | fails exactly for a corrupt file; a missing file loads as the empty mapping and a stored one as its contents |
| `Store.MappingStore.Load` | src/index.ts:89-92 | the loaded mapping is what the file holds (empty when there is no file); the flags start false, the store is in sync with the file |
| `Store.MappingStore.Merge` | src/index.ts:183-185 | writes `mapping[id]`, keeps every other key, sets `dirty`, appends `id` once to `newVersions`, leaves `flushing` and the file alone |
| `Store.MappingStore.FlushBegin` | src/index.ts:94-98 | starts exactly when dirty and not flushing, then sets `flushing` and snapshots the mapping; otherwise changes nothing |
| `Store.MappingStore.FlushEnd` | src/index.ts:98-101 | the file becomes the whole snapshot and both flags clear; the store is in sync iff the mapping still equals the snapshot |
| `Store.MappingStore.Flush` | src/index.ts:94-102 | a no-op unless dirty and not flushing; otherwise the file holds the current mapping and both flags are false |
| `Store.LateMergeIsNotPersisted` | src/index.ts:94-102 | a merge between snapshot and rename stays in memory only, yet `dirty` ends false |
| `Store.ConcurrentFlushIsIgnored` | src/index.ts:94-96 | a flush requested while one is in progress does not start |
| `Pipeline.ExitStatus` | src/index.ts:293-296 | the status is 0 exactly for a completed run and 1 for every modelled failure, as `main().catch` and the handlers at lines 116-119 exit |
| `Pipeline.Resolve` | src/index.ts:177-190 | an item yields formats iff its archive arrived and decoded, and then yields the decoded formats; a missing `version.json` yields nothing |
| `Pipeline.ProcessItem` | src/index.ts:177-190 | on success the store gains `mapping[id]`, `dirty` and the `newVersions` entry; any caught failure leaves the store unchanged |
| `Pipeline.CompletionOrder` | src/index.ts:162-194 | the completion order is a permutation of the planned list |
| `Pipeline.FirstAbort` | src/index.ts:174-175 | the first completion whose descriptor fetch fails, with none failing before it |
| `Pipeline.CompleteInOrder` | src/index.ts:174-194 | processes the completions up to the first descriptor failure; the store then holds `Merged` and `Succeeded` of them, is dirty iff something was added, and the file is untouched |
| `Pipeline.FinishAsWritten` | src/index.ts:201-210 | after the final flush from a non-flushing store, neither the publish branch nor `did_update` can be true; only a flush already in progress leaves `dirty` set, and then `did_update` is true and publishing depends on commits and a token alone |
| `Pipeline.PublishGateCounterexample` | src/index.ts:201-210 | a store that gained version "1.21", with commits enabled and a token, is neither published nor reported as updated |
| `Pipeline.FinishCorrected` | src/index.ts:201-210 | publishes iff the store was dirty before the final flush and commits and a token are enabled; `did_update` is that dirtiness |
| `Pipeline.Run` | src/index.ts:75-210 | the exit, final mapping and file equal `Expected`; the store ends in sync with the file and not flushing; the publish decision is the corrected gate of `FinishCorrected`, not lines 203 and 210 as written |
| `PipelineLemmas.EveryOrderIsReachable` | src/index.ts:162-194 | every permutation of the planned list is the completion order of some `choices`, so "any completion order" covers all of them |
| `PipelineLemmas.MergedPreserves` | src/index.ts:183 | a key no completion names keeps its value |
| `PipelineLemmas.MergedKeys` | src/index.ts:183-185 | the final key set is the initial keys plus the successful ids |
| `PipelineLemmas.SucceededSound` | src/index.ts:183-185 | every id in `newVersions` belongs to a completion that decoded |
| `PipelineLemmas.SucceededComplete` | src/index.ts:177-190 | every completion that decoded is recorded, whatever its siblings did |
| `PipelineLemmas.MergedValue` | src/index.ts:183 | with distinct ids, each successful id maps to what its archive decoded to |
| `PipelineLemmas.NothingSucceeds` | src/index.ts:188-190 | completions that all fail change neither the mapping nor `newVersions` |
| `PipelineLemmas.UnknownCutoffIsFatal` | src/index.ts:145-147 | an unmatched cutoff exits with status 1; the loaded mapping and the file are untouched |
| `PipelineLemmas.RunKeepsExistingEntries` | src/index.ts:164-185 | every entry loaded from the file keeps its value after the run |
| `PipelineLemmas.RunAddsExactlyNewVersions` | src/index.ts:164-185 | a completed run's key set is the loaded keys plus `newVersions`, none of which was mapped before |
| `PipelineLemmas.RunIsDurable` | src/index.ts:94-102 | in the model's sequential run, unless the file was corrupt, reading the file back gives the mapping in memory, also after an aborting descriptor failure (the source can lose that flush; see `Pipeline.Run` under "## Left out") |
| `PipelineLemmas.RunPublishesWhatItAdded` | src/index.ts:201-210 | with the corrected gate, a completed run reports an update and publishes iff it added a version |
| `PipelineLemmas.CompletionsAddNothing` | src/index.ts:177-190 | if every completion fails in isolation, the run completes with nothing added and nothing published |
| `PipelineLemmas.ReplannedItemsFailAgain` | src/index.ts:164-190 | after a fully completed run, everything re-planned was planned before and failed |
| `PipelineLemmas.SecondRunAddsNothing` | src/index.ts:164-190 | a second run on the file a completed run left, with the same catalog and network and any completion order, adds nothing, publishes nothing and leaves mapping and file unchanged |

## Left out

- `createCommitAndPR` (src/index.ts:214-290) is not modelled. It is GitHub REST and GraphQL calls plus Mustache templating. The model keeps only the decision to call it, as `published`.
- The network is not modelled. `fetchJSON`, `fetchBuffer` and the manifest download are inputs: the catalog, and a `network` function from entry to outcome. A failed manifest download (src/index.ts:42, 124) is therefore not modelled: in the source it rejects `main`, and `main().catch` exits with status 1 with the mapping and the file unchanged (src/index.ts:293-296).
- File I/O is not modelled. `fileExists`, `readFile`, `writeFile` and `rename` act on the ghost `disk`, and the rename replaces it in one step. The write and the rename never fail in the model. In the source a rejected `writeFile` or `rename` leaves `flushing` true, because lines 100-101 never run. Every later `flush` then returns at line 95, and the rejection reaching line 201 rejects `main`, which exits with status 1 (src/index.ts:293-296). JSON serialization of the mapping is also left out: a NaN would be written as `null`, and the model stores it as NaN.
- Archive opening and `JSON.parse` are foreign libraries. An archive is a map from entry names to parsed JSON or to an unparsable marker. Bytes that are not an archive count as `JarUnavailable`.
- Double-precision rounding is not modelled. Numbers are exact reals.
- `Normalize`: JavaScript's `Number` parses strings and arrays (`Number("7")` is 7, `Number([])` is 0). The model gives NaN for them, both for a major whose minor is 0 and in the decimal-text branch, where string or one-element array fields such as `"5"`/`"2"` or `[5]`/`[2]` build the text "5.2" that `Number` reads as 5.2.
- `Normalize`: a minor that JavaScript prints in exponent form (1e21 and above, or a fraction below 1e-6) gives NaN in the model. The source would read such text as a number.
- Date parsing is not modelled. Timestamps are integers, `Unparsable` or `Absent`, and an unparsable date behaves like an Invalid Date.
- Whitespace trimming of the action inputs (`trimWhitespace: true`) is not modelled. Inputs arrive already trimmed.
- The `concurrency` input is an optional integer. Non-integer numbers are not modelled.
- Concurrency itself is not modelled: the p-queue bound, the interleaving of completions and the flushes triggered by signals (exit 130), `uncaughtException` and `beforeExit` (src/index.ts:104-122). Completions happen one at a time in the order `choices` selects. The begin/end halves of `MappingStore`'s flush model the re-entrancy guard, and `LateMergeIsNotPersisted` covers a merge that arrives during a flush.
- `Pipeline.Run`: the source does not always persist the run's merges when it exits with status 1 after a descriptor failure. Any flush request that arrives while a flush is in flight returns at line 95, and its `.finally(() => process.exit(1))` (or `exit(130)`) then ends the process before the pending `rename` at line 99, so the file keeps its old contents. Such a request can come from a second descriptor rejection (the `unhandledRejection` handler is registered with `process.on`, so it runs for every rejection, src/index.ts:116-119), from a signal (lines 105-108), or from `main`'s final `flush()` (line 201). The last case arises when the item that settles last is the failing one: the queue becomes idle in the same step, so `await queue.onIdle()` (line 194) resumes before Node reports the rejection. One item merging, then two descriptor fetches rejecting together, loses the merge. The model always completes one flush before exiting with status 1 and stores the merged mapping; it does not capture this lost write.
- Items in flight when a descriptor fetch fails are not modelled. In the source, that failure triggers the `unhandledRejection` flush and exit 1 (src/index.ts:116-119), and other items may still complete during that flush; their merges never reach the file, and the flush itself can be abandoned as the `Pipeline.Run` line above describes. The model processes nothing after the failing completion.
- Load order is not modelled: the handlers are armed only after `loadExisting`, so a corrupt file exits with status 1 without any flush. The model treats it as a plain failure.
- Falsy values in a hand-edited file are not modelled. The skip test is the truthiness of `mapping[v.id]`, while the model tests key membership. These coincide for files this program writes, whose values are always objects. Ids that name `Object.prototype` members are also not modelled.
- Logging, `isDebug`, and `setOutput` for `path` and `new_versions` are side outputs only. `new_versions` equals `Completed.newVersions`.
- `dist/index.cjs` and `dist/index.js` are build outputs and an older script, not the maintained source.

## Findings

| source | as written | input that shows it | evidently intended | confidence | as-written member | corrected member |
|---|---|---|---|---|---|---|
| src/index.ts:201-210 | `await flush()` clears `dirty` before `if (dirty && commitEnabled && token)` and `setOutput('did_update', dirty)` read it, so the PR is never created and `did_update` is always false after a normal run | a run in which one version (say "1.21") decodes successfully, with `commit_enabled` true and a token present | decide publishing and `did_update` by whether the run added anything, read before the final flush clears `dirty` | high; not executed | `Pipeline.FinishAsWritten`, `Pipeline.PublishGateCounterexample` | `Pipeline.FinishCorrected` (used by `Run`), `PipelineLemmas.RunPublishesWhatItAdded` |
