/**
 `restic_snapshot_inventory`: reconciling the provider's snapshot listing with the
 manifest, and projecting verified aggregate snapshots onto a requested lineage.
 */
module ResticInventory {
  import opened ControlledCopies

  /** One row of the provider's listing. */
  datatype Listing = Listing(id: SnapshotId, tags: seq<string>)

  datatype Scope = Scope(resourceType: string, tenant: string, lineage: Lineage)

  /** A returned copy, bound to the requested lineage. */
  datatype Copy = Copy(reference: string, lineage: Lineage)

  datatype Outcome = Inventory(complete: bool, copies: seq<Copy>) | Failed

  predicate Exact(value: string) {
    value != "" && value != "*"
  }

  predicate ExactLineage(lineage: Lineage) {
    Exact(lineage.resource) && Exact(lineage.generation)
  }

  /** A scope that an aggregate snapshot can be projected onto. */
  predicate ProjectableScope(scope: Scope) {
    && (scope.resourceType == "message" || scope.resourceType == "tenant" || scope.resourceType == "account")
    && Exact(scope.tenant) && ExactLineage(scope.lineage)
  }

  predicate IsAggregate(store: Store, e: Entry) {
    store == ResticSnapshot && e.lineage.resource == "communicator-core"
  }

  /** The manifest declares aggregate coverage, and the layout inside the snapshot proves it. */
  predicate VerifiedAggregate(e: Entry, scope: Scope, layoutOk: SnapshotId -> bool) {
    && e.lineage.generation == e.snapshotId
    && e.aggregateCoverage
    && layoutOk(e.snapshotId)
    && ProjectableScope(scope)
    && e.reference != ""
  }

  predicate ControlledListing(store: Store, l: Listing) {
    exists i, j :: 0 <= i < |l.tags| && 0 <= j < |AllowedTags(store)| && AllowedTags(store)[j] <= l.tags[i]
  }

  ghost function ProviderIds(provider: seq<Listing>, store: Store): (ids: set<SnapshotId>) {
    set i | 0 <= i < |provider| && ControlledListing(store, provider[i]) :: provider[i].id
  }

  /** The entry makes the whole inventory fail: an inexact lineage, or an exact match without
      a reference. */
  predicate Poisons(store: Store, e: Entry, ids: set<SnapshotId>, scope: Scope) {
    && e.snapshotId != "" && e.snapshotId in ids
    && (!ExactLineage(e.lineage) || (!IsAggregate(store, e) && e.lineage == scope.lineage && e.reference == ""))
  }

  predicate CoverageError(store: Store, e: Entry, ids: set<SnapshotId>, scope: Scope, layoutOk: SnapshotId -> bool) {
    || e.snapshotId == ""
    || (e.snapshotId in ids && IsAggregate(store, e) && !VerifiedAggregate(e, scope, layoutOk))
  }

  /** The entry is a copy of the requested lineage. */
  predicate Matches(store: Store, e: Entry, ids: set<SnapshotId>, scope: Scope, layoutOk: SnapshotId -> bool) {
    && e.snapshotId != "" && e.snapshotId in ids
    && if IsAggregate(store, e) then VerifiedAggregate(e, scope, layoutOk) else e.lineage == scope.lineage
  }

  ghost predicate DistinctCopies(copies: seq<Copy>) {
    forall i, j :: 0 <= i < j < |copies| ==> copies[i].reference != copies[j].reference
  }

  ghost predicate HasCopy(copies: seq<Copy>, reference: string) {
    exists i :: 0 <= i < |copies| && copies[i].reference == reference
  }

  ghost predicate HasMatch(entries: seq<Entry>, reference: string, store: Store, ids: set<SnapshotId>, scope: Scope,
                           layoutOk: SnapshotId -> bool)
  {
    exists i ::
      0 <= i < |entries| && entries[i].reference == reference && Matches(store, entries[i], ids, scope, layoutOk)
  }

  datatype Verdict = Poison | Uncovered | Include | Skip

  /** The branches of the loop over manifest entries, in the order the loop tests them. */
  function Judge(store: Store, e: Entry, ids: set<SnapshotId>, scope: Scope, layoutOk: SnapshotId -> bool): (v: Verdict)
    ensures v == Poison <==> Poisons(store, e, ids, scope)
    ensures v != Poison ==> (v == Uncovered <==> CoverageError(store, e, ids, scope, layoutOk))
    ensures v != Poison ==> (v == Include <==> Matches(store, e, ids, scope, layoutOk))
  {
    if e.snapshotId == "" then Uncovered
    else if e.snapshotId !in ids then Skip
    else if !ExactLineage(e.lineage) then Poison
    else if IsAggregate(store, e) then
      if VerifiedAggregate(e, scope, layoutOk) then Include else Uncovered
    else if e.lineage != scope.lineage then Skip
    else if e.reference == "" then Poison
    else Include
  }

  /** The lineage states its resource and its generation, and neither as a wildcard. */
  ghost predicate StatesLineage(lineage: Lineage) {
    "" !in {lineage.resource, lineage.generation} && "*" !in {lineage.resource, lineage.generation}
  }

  /** What the loop does with an entry that the provider lists: an inexact lineage fails the whole
      inventory; a core entry is returned if it is an aggregate of its own snapshot with declared and
      proved coverage and the scope can take it, and is an error of coverage otherwise; any other
      entry is returned for its own lineage only, and then must have a reference. */
  lemma JudgeMeans(store: Store, e: Entry, ids: set<SnapshotId>, scope: Scope, layoutOk: SnapshotId -> bool)
    requires e.snapshotId != "" && e.snapshotId in ids
    ensures var v := Judge(store, e, ids, scope, layoutOk);
            var core := store == ResticSnapshot && e.lineage.resource == "communicator-core";
            if !StatesLineage(e.lineage) then v == Poison
            else if core then
              v == if && e.lineage.generation == e.snapshotId && e.aggregateCoverage && layoutOk(e.snapshotId)
                      && e.reference != "" && scope.resourceType in {"message", "tenant", "account"}
                      && scope.tenant != "" && scope.tenant != "*" && StatesLineage(scope.lineage)
                   then Include else Uncovered
            else v == if e.lineage != scope.lineage then Skip else if e.reference == "" then Poison else Include
  {
  }

  method ControlledIds(provider: seq<Listing>, store: Store) returns (ok: bool, ids: set<SnapshotId>)
    ensures ok <==> forall i :: 0 <= i < |provider| ==> provider[i].id != ""
    ensures ok ==> ids == ProviderIds(provider, store)
  {
    ids := {};
    for i := 0 to |provider|
      invariant forall j :: 0 <= j < i ==> provider[j].id != ""
      invariant ids == ProviderIds(provider[..i], store)
    {
      if provider[i].id == "" { return false, ids; }
      var next := provider[..i + 1];
      assert forall j :: 0 <= j < i ==> next[j] == provider[..i][j];
      assert next[i] == provider[i];
      if ControlledListing(store, provider[i]) { ids := ids + {provider[i].id}; }
      assert ids == ProviderIds(next, store);
    }
    assert provider[..|provider|] == provider;
    return true, ids;
  }

  method SnapshotInventory(provider: seq<Listing>, entries: seq<Entry>, store: Store, scope: Scope,
                           layoutOk: SnapshotId -> bool)
    returns (r: Outcome)
    ensures r.Failed? <==>
            || (exists i :: 0 <= i < |provider| && provider[i].id == "")
            || (exists i :: 0 <= i < |entries| && Poisons(store, entries[i], ProviderIds(provider, store), scope))
    ensures r.Inventory? ==> (r.complete <==> IsComplete(provider, entries, store, scope, layoutOk))
    ensures r.Inventory? ==> DistinctCopies(r.copies)
    ensures r.Inventory? ==> forall c :: c in r.copies ==> c.lineage == scope.lineage
    ensures r.Inventory? ==>
              forall reference :: HasCopy(r.copies, reference) <==>
                                  HasMatch(entries, reference, store, ProviderIds(provider, store), scope, layoutOk)
  {
    var ok, ids := ControlledIds(provider, store);
    if !ok { return Failed; }
    var manifestIds := set i | 0 <= i < |entries| && entries[i].snapshotId != "" :: entries[i].snapshotId;
    var poisoned, coverageErrors, copies := CollectCopies(entries, store, ids, scope, layoutOk);
    if poisoned { return Failed; }
    return Inventory(ids == manifestIds && coverageErrors == 0, copies);
  }

  /** The loop over manifest entries. */
  method CollectCopies(entries: seq<Entry>, store: Store, ids: set<SnapshotId>, scope: Scope,
                       layoutOk: SnapshotId -> bool)
    returns (poisoned: bool, coverageErrors: nat, copies: seq<Copy>)
    ensures poisoned <==> exists i :: 0 <= i < |entries| && Poisons(store, entries[i], ids, scope)
    ensures !poisoned ==>
              (coverageErrors == 0 <==>
               forall i :: 0 <= i < |entries| ==> !CoverageError(store, entries[i], ids, scope, layoutOk))
    ensures !poisoned ==> DistinctCopies(copies) && forall c :: c in copies ==> c.lineage == scope.lineage
    ensures !poisoned ==>
              forall reference :: HasCopy(copies, reference) <==>
                HasMatch(entries, reference, store, ids, scope, layoutOk)
  {
    poisoned, coverageErrors, copies := false, 0, [];
    var seen: set<string> := {};
    for i := 0 to |entries|
      invariant forall j :: 0 <= j < i ==> !Poisons(store, entries[j], ids, scope)
      invariant coverageErrors == 0 <==>
                  forall j :: 0 <= j < i ==> !CoverageError(store, entries[j], ids, scope, layoutOk)
      invariant Collected(copies, seen, entries[..i], store, ids, scope, layoutOk)
    {
      var e := entries[i];
      CollectStep(copies, seen, entries, i, store, ids, scope, layoutOk);
      var verdict := Judge(store, e, ids, scope, layoutOk);
      if verdict == Poison { return true, coverageErrors, copies; }
      if verdict == Uncovered {
        coverageErrors := coverageErrors + 1;
      } else if verdict == Include && e.reference !in seen {
        copies := copies + [Copy(e.reference, scope.lineage)];
        seen := seen + {e.reference};
      }
    }
    assert entries[..|entries|] == entries;
  }

  /** The copies are the matches among these entries, each once. */
  ghost predicate Collected(copies: seq<Copy>, seen: set<string>, entries: seq<Entry>, store: Store,
                            ids: set<SnapshotId>, scope: Scope, layoutOk: SnapshotId -> bool)
  {
    && (forall x :: x in seen <==> HasCopy(copies, x))
    && DistinctCopies(copies) && (forall c :: c in copies ==> c.lineage == scope.lineage)
    && (forall x :: HasCopy(copies, x) <==> HasMatch(entries, x, store, ids, scope, layoutOk))
  }

  lemma CollectStep(copies: seq<Copy>, seen: set<string>, entries: seq<Entry>, i: nat, store: Store,
                    ids: set<SnapshotId>, scope: Scope, layoutOk: SnapshotId -> bool)
    requires i < |entries| && Collected(copies, seen, entries[..i], store, ids, scope, layoutOk)
    ensures var e := entries[i];
            if Matches(store, e, ids, scope, layoutOk) && e.reference !in seen then
              Collected(copies + [Copy(e.reference, scope.lineage)], seen + {e.reference}, entries[..i + 1],
                        store, ids, scope, layoutOk)
            else Collected(copies, seen, entries[..i + 1], store, ids, scope, layoutOk)
  {
    var e := entries[i];
    MatchStep(entries, i, store, ids, scope, layoutOk);
    if Matches(store, e, ids, scope, layoutOk) && e.reference !in seen {
      var c := Copy(e.reference, scope.lineage);
      CopyStep(copies, c);
      assert forall k :: 0 <= k < |copies| ==> HasCopy(copies, copies[k].reference);
      assert DistinctCopies(copies + [c]);
    }
  }

  lemma MatchStep(entries: seq<Entry>, i: nat, store: Store, ids: set<SnapshotId>, scope: Scope,
                  layoutOk: SnapshotId -> bool)
    requires i < |entries|
    ensures forall x :: HasMatch(entries[..i + 1], x, store, ids, scope, layoutOk) <==>
              || HasMatch(entries[..i], x, store, ids, scope, layoutOk)
              || (entries[i].reference == x && Matches(store, entries[i], ids, scope, layoutOk))
  {
    forall x ensures HasMatch(entries[..i + 1], x, store, ids, scope, layoutOk) <==>
        || HasMatch(entries[..i], x, store, ids, scope, layoutOk)
        || (entries[i].reference == x && Matches(store, entries[i], ids, scope, layoutOk))
    {
      MatchNext(entries[..i], entries[i], x, store, ids, scope, layoutOk);
      assert entries[..i + 1] == entries[..i] + [entries[i]];
    }
  }

  lemma MatchNext(entries: seq<Entry>, e: Entry, x: string, store: Store, ids: set<SnapshotId>, scope: Scope,
                  layoutOk: SnapshotId -> bool)
    ensures HasMatch(entries + [e], x, store, ids, scope, layoutOk) <==>
            HasMatch(entries, x, store, ids, scope, layoutOk) ||
              (e.reference == x && Matches(store, e, ids, scope, layoutOk))
  {
    var next := entries + [e];
    assert next[|entries|] == e;
    if j :| 0 <= j < |next| && next[j].reference == x && Matches(store, next[j], ids, scope, layoutOk) {
      if j < |entries| { assert entries[j] == next[j]; }
    }
    if j :| 0 <= j < |entries| && entries[j].reference == x && Matches(store, entries[j], ids, scope, layoutOk) {
      assert next[j] == entries[j];
    }
  }

  lemma CopyStep(copies: seq<Copy>, c: Copy)
    ensures forall x :: HasCopy(copies + [c], x) <==> HasCopy(copies, x) || c.reference == x
  {
    var next := copies + [c];
    forall x ensures HasCopy(next, x) <==> HasCopy(copies, x) || c.reference == x {
      assert next[|copies|] == c;
      if j :| 0 <= j < |next| && next[j].reference == x {
        if j < |copies| { assert copies[j] == next[j]; }
      }
      if j :| 0 <= j < |copies| && copies[j].reference == x { assert next[j] == copies[j]; }
    }
  }

  /** The provider lists exactly the snapshots of the repository, each with its tag. */
  ghost predicate Lists(provider: seq<Listing>, repo: Repository) {
    && (forall id :: id in repo <==> exists i :: 0 <= i < |provider| && provider[i].id == id)
    && (forall i :: 0 <= i < |provider| ==> provider[i].id in repo && provider[i].tags == [repo[provider[i].id].tag])
  }

  /** When the inventory says complete. */
  ghost predicate IsComplete(provider: seq<Listing>, entries: seq<Entry>, store: Store, scope: Scope,
                             layoutOk: SnapshotId -> bool) {
    && ProviderIds(provider, store) == ListedIds(entries)
    && forall i :: 0 <= i < |entries| ==>
         !CoverageError(store, entries[i], ProviderIds(provider, store), scope, layoutOk)
  }

  lemma ProviderIdsAreTagged(repo: Repository, provider: seq<Listing>, store: Store)
    requires Lists(provider, repo)
    ensures ProviderIds(provider, store) == TaggedIds(repo, store)
  {
    var ids := ProviderIds(provider, store);
    forall id ensures id in ids <==> id in TaggedIds(repo, store) {
      if id in repo {
        var i :| 0 <= i < |provider| && provider[i].id == id;
        SingleTag(store, provider[i], repo[id].tag);
      }
      if id in ids {
        var i :| 0 <= i < |provider| && ControlledListing(store, provider[i]) && provider[i].id == id;
        SingleTag(store, provider[i], repo[id].tag);
      }
    }
  }

  /** A complete inventory of a repository: the controlled snapshots are exactly the listed
      ones, and a reference is returned exactly when its entry is an aggregate or carries the
      requested lineage. */
  lemma CompleteInventoryIsSound(repo: Repository, provider: seq<Listing>, entries: seq<Entry>, store: Store,
                                 scope: Scope, layoutOk: SnapshotId -> bool)
    requires Lists(provider, repo) && IsComplete(provider, entries, store, scope, layoutOk)
    ensures TaggedIds(repo, store) == ListedIds(entries)
    ensures forall x :: HasMatch(entries, x, store, ProviderIds(provider, store), scope, layoutOk) <==>
              exists i :: 0 <= i < |entries| && entries[i].reference == x &&
                          (IsAggregate(store, entries[i]) || entries[i].lineage == scope.lineage)
  {
    var ids := ProviderIds(provider, store);
    ProviderIdsAreTagged(repo, provider, store);
    forall i | 0 <= i < |entries| ensures entries[i].snapshotId != "" && entries[i].snapshotId in ids {
      assert !CoverageError(store, entries[i], ids, scope, layoutOk);
      assert entries[i].snapshotId in ListedIds(entries);
    }
    forall i | 0 <= i < |entries|
      ensures Matches(store, entries[i], ids, scope, layoutOk) <==>
              IsAggregate(store, entries[i]) || entries[i].lineage == scope.lineage
    {
      assert !CoverageError(store, entries[i], ids, scope, layoutOk);
    }
  }

  lemma SingleTag(store: Store, l: Listing, tag: string)
    requires l.tags == [tag]
    ensures ControlledListing(store, l) <==> Controls(store, tag)
  {
    if Controls(store, tag) {
      var j :| 0 <= j < |AllowedTags(store)| && AllowedTags(store)[j] <= tag;
      assert l.tags[0] == tag;
    }
  }
}
