/**
 * The update planner of `main` in src/index.ts: locate the cutoff entry in
 * the catalog, then select, in catalog order, the entries still to resolve.
 */
module Planner {

  import opened Wrappers

  /** The cutoff used when the `cutoff_version` input is empty. */
  const DefaultCutoff: string := "18w47a"

  /**
   * A timestamp field of a catalog entry: absent (or empty, hence falsy),
   * text that `new Date` cannot parse, or a parsed instant.
   */
  datatype Timestamp = Absent | Unparsable | At(t: int)

  /** One element of the manifest's `versions` list. */
  datatype CatalogEntry = CatalogEntry(id: string, url: string, releaseTime: Timestamp, time: Timestamp)

  /** `getInput("cutoff_version") || '18w47a'`: an empty input selects the default cutoff. */
  function CutoffId(input: string): (r: string)
    ensures input == "" ==> r == DefaultCutoff
    ensures input != "" ==> r == input
    ensures r != ""
  {
    if input == "" then DefaultCutoff else input
  }

  /** `new Date(v.releaseTime || v.time)`; None is an Invalid Date. */
  function DateOf(e: CatalogEntry): (r: Option<int>)
    ensures e.releaseTime.At? ==> r == Some(e.releaseTime.t)
    ensures e.releaseTime.Unparsable? ==> r.None?
    ensures e.releaseTime.Absent? ==> (r.Some? <==> e.time.At?)
    ensures r.Some? ==> (e.releaseTime.At? && r.value == e.releaseTime.t)
                        || (e.releaseTime.Absent? && e.time.At? && r.value == e.time.t)
  {
    var stamp := if e.releaseTime.Absent? then e.time else e.releaseTime;
    if stamp.At? then Some(stamp.t) else None
  }

  /** `versionTime < referenceTime`: a comparison involving an Invalid Date is false. */
  predicate Earlier(t: Option<int>, reference: Option<int>): (r: bool)
    ensures t.None? || reference.None? ==> !r
    ensures t.Some? && reference.Some? ==> (r <==> t.value < reference.value)
  {
    t.Some? && reference.Some? && t.value < reference.value
  }

  /** The two tests of the planning loop: not yet mapped, and not before the reference. */
  predicate Wanted(e: CatalogEntry, known: set<string>, reference: Option<int>)
  {
    e.id !in known && !Earlier(DateOf(e), reference)
  }

  /** `versions.find(v => v.id === cutoff)`, as the position of the first match. */
  function FindReference(catalog: seq<CatalogEntry>, cutoff: string): (r: Option<nat>)
    ensures r.Some? ==> r.value < |catalog| && catalog[r.value].id == cutoff
    ensures r.Some? ==> forall j :: 0 <= j < r.value ==> catalog[j].id != cutoff
    ensures r.None? ==> forall j :: 0 <= j < |catalog| ==> catalog[j].id != cutoff
  {
    if catalog == [] then None
    else if catalog[0].id == cutoff then Some(0)
    else match FindReference(catalog[1..], cutoff)
      case None => None
      case Some(k) => Some(k + 1)
  }

  /** The specification of the planning loop: the wanted entries, in catalog order. */
  function Pending(catalog: seq<CatalogEntry>, known: set<string>, reference: Option<int>): seq<CatalogEntry>
  {
    if catalog == [] then []
    else
      var last := catalog[|catalog| - 1];
      Pending(catalog[..|catalog| - 1], known, reference) + (if Wanted(last, known, reference) then [last] else [])
  }

  /**
   * The `for (const v of versions)` loop: skip mapped ids and entries older
   * than the reference; every other entry is queued, in order.
   */
  method PlanUpdates(catalog: seq<CatalogEntry>, known: set<string>, reference: Option<int>)
    returns (queued: seq<CatalogEntry>)
    ensures queued == Pending(catalog, known, reference)
  {
    queued := [];
    for i := 0 to |catalog|
      invariant queued == Pending(catalog[..i], known, reference)
    {
      assert catalog[..i + 1][..i] == catalog[..i];
      var v := catalog[i];
      if v.id in known {
        continue;
      }
      if Earlier(DateOf(v), reference) {
        continue;
      }
      queued := queued + [v];
    }
    assert catalog[..|catalog|] == catalog;
  }

  /** Planning distributes over concatenation: catalog order is kept. */
  lemma {:induction false} PendingAppend(a: seq<CatalogEntry>, b: seq<CatalogEntry>, known: set<string>, reference: Option<int>)
    ensures Pending(a + b, known, reference) == Pending(a, known, reference) + Pending(b, known, reference)
    decreases |b|
  {
    if b == [] {
      assert a + b == a;
    } else {
      var b' := b[..|b| - 1];
      assert (a + b)[..|a + b| - 1] == a + b';
      assert (a + b)[|a + b| - 1] == b[|b| - 1];
      PendingAppend(a, b', known, reference);
    }
  }

  /** An entry is planned exactly when it is in the catalog and wanted. */
  lemma {:induction false} PendingMembership(catalog: seq<CatalogEntry>, known: set<string>, reference: Option<int>, e: CatalogEntry)
    ensures e in Pending(catalog, known, reference) <==> e in catalog && Wanted(e, known, reference)
  {
    if catalog != [] {
      var prefix := catalog[..|catalog| - 1];
      assert catalog == prefix + [catalog[|catalog| - 1]];
      PendingMembership(prefix, known, reference, e);
    }
  }

  /** An id that is already mapped is never planned, whatever its timestamp. */
  lemma KnownNeverPlanned(catalog: seq<CatalogEntry>, known: set<string>, reference: Option<int>, e: CatalogEntry)
    requires e.id in known
    ensures e !in Pending(catalog, known, reference)
  {
    PendingMembership(catalog, known, reference, e);
  }

  /** Filtering the plan by more known ids is planning against the union. */
  lemma {:induction false} PendingCompose(catalog: seq<CatalogEntry>, known: set<string>, more: set<string>, reference: Option<int>)
    ensures Pending(Pending(catalog, known, reference), more, reference) == Pending(catalog, known + more, reference)
  {
    if catalog != [] {
      var prefix := catalog[..|catalog| - 1];
      var last := catalog[|catalog| - 1];
      var tail := if Wanted(last, known, reference) then [last] else [];
      PendingCompose(prefix, known, more, reference);
      PendingAppend(Pending(prefix, known, reference), tail, more, reference);
      if tail != [] {
        assert tail[..0] == [];
      }
    }
  }

  /** A plan whose every id has since been mapped is empty. */
  lemma ReplanIsEmpty(catalog: seq<CatalogEntry>, known: set<string>, more: set<string>, reference: Option<int>)
    requires forall e :: e in Pending(catalog, known, reference) ==> e.id in more
    ensures Pending(catalog, known + more, reference) == []
  {
    var plan := Pending(catalog, known, reference);
    PendingCompose(catalog, known, more, reference);
    if Pending(plan, more, reference) != [] {
      var e := Pending(plan, more, reference)[0];
      PendingMembership(plan, more, reference, e);
      assert false;
    }
  }

  /**
   * With timestamps T1 < T2 < T3 and the T2 entry as reference, the T1
   * entry is skipped and the T2 and T3 entries are planned.
   */
  lemma CutoffFiltering(e1: CatalogEntry, e2: CatalogEntry, e3: CatalogEntry, known: set<string>)
    requires DateOf(e1).Some? && DateOf(e2).Some? && DateOf(e3).Some?
    requires DateOf(e1).value < DateOf(e2).value < DateOf(e3).value
    requires e1.id !in known && e2.id !in known && e3.id !in known
    ensures Pending([e1, e2, e3], known, DateOf(e2)) == [e2, e3]
  {
    var ref := DateOf(e2);
    assert [e1, e2, e3][..2] == [e1, e2];
    assert [e1, e2][..1] == [e1];
    assert [e1][..0] == [];
    assert !Wanted(e1, known, ref) && Wanted(e2, known, ref) && Wanted(e3, known, ref);
    assert Pending([e1], known, ref) == [];
    assert Pending([e1, e2], known, ref) == [e2];
  }
}
