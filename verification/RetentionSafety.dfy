/** Every step of the retention protocol keeps its invariant, and what follows from that. */
module RetentionSafety {
  import opened ControlledCopies
  import opened SplitMigration
  import opened RetentionProtocol
  import I = ResticInventory

  // ---- What does not change

  /** Old snapshots are never altered, and ids are never reused. */
  ghost predicate RepoEvolves(s: State, s': State) {
    forall id :: id in s.used && id in s'.repo ==> id in s.repo && s'.repo[id] == s.repo[id]
  }

  ghost predicate OwnersKept(s: State, s': State) {
    forall id :: id in s.owner ==> id in s'.owner && s'.owner[id] == s.owner[id]
  }

  lemma ProcessStable(s: State, s': State, p: Process)
    requires HistoryOk(s) && ProcessOk(s, p) && RepoEvolves(s, s')
    requires Fresh(p) <= s'.repo.Keys
    requires OwnersKept(s, s')
    requires Fresh(p) !! s'.owner.Keys && Fresh(p) !! s'.orphans
    ensures ProcessOk(s', p)
  {
    match p
    case BackedUp(id) => assert id in Fresh(p);
    case Requested(_, _) =>
    case Forgotten(copy) =>
    case Splitting(job, ids) => JobStable(s, s', job, ids);
    case SplitForgotten(job, ids) => JobStable(s, s', job, ids);
  }

  lemma JobStable(s: State, s': State, job: Job, ids: seq<SnapshotId>)
    requires HistoryOk(s) && JobOk(s, job, ids) && RepoEvolves(s, s')
    requires forall k :: 0 <= k < |ids| ==> ids[k] in s'.repo
    requires OwnersKept(s, s')
    ensures JobOk(s', job, ids)
  {
    forall k | 0 <= k < |ids|
      ensures s'.repo[ids[k]] == Snapshot(job.parts[k].Tag(), job.parts[k].files)
    {
      assert ids[k] in s.repo;
    }
  }

  /** All processes but one carry over; that one is checked by the caller. */
  lemma OthersStable(s: State, s': State, pid: nat)
    requires HistoryOk(s) && ProcessesOk(s) && RepoEvolves(s, s')
    requires OwnersKept(s, s')
    requires forall q :: q in s'.processes && q != pid ==> q in s.processes && s'.processes[q] == s.processes[q]
    requires forall q :: q in s.processes && q != pid ==>
               var mine := Fresh(s.processes[q]);
               mine <= s'.repo.Keys && mine !! s'.owner.Keys && mine !! s'.orphans
    requires pid in s'.processes ==> ProcessOk(s', s'.processes[pid])
    requires pid in s'.processes ==>
               forall q :: q in s.processes && q != pid ==> Fresh(s'.processes[pid]) !! Fresh(s.processes[q])
    ensures ProcessesOk(s')
  {
    forall q | q in s'.processes ensures ProcessOk(s', s'.processes[q]) {
      if q != pid { ProcessStable(s, s', s.processes[q]); }
    }
  }

  lemma FreshInRepo(s: State, p: Process)
    requires ProcessOk(s, p)
    ensures Fresh(p) <= s.repo.Keys
  {
  }

  lemma AllFreshInRepo(s: State)
    requires ProcessesOk(s)
    ensures forall q :: q in s.processes ==>
              var mine := Fresh(s.processes[q]);
              mine <= s.repo.Keys && mine !! s.owner.Keys && mine !! s.orphans
  {
    forall q | q in s.processes ensures Fresh(s.processes[q]) <= s.repo.Keys { FreshInRepo(s, s.processes[q]); }
  }

  lemma ManifestUntouched(s: State, s': State)
    requires ManifestOk(s) && HistoryOk(s) && RepoEvolves(s, s') && OwnersKept(s, s') && s'.manifest == s.manifest
    ensures ManifestOk(s')
  {
    PureStable(s, s');
  }

  lemma PureStable(s: State, s': State)
    requires ManifestOk(s) && HistoryOk(s) && RepoEvolves(s, s')
    ensures forall e :: e in Copies(s.manifest, ResticSnapshot) ==> Pure(s'.repo, e)
  {
    forall e | e in Copies(s.manifest, ResticSnapshot) ensures Pure(s'.repo, e) {
      ListedOnce(s, ResticSnapshot, e);
      assert Pure(s.repo, e);
    }
  }

  lemma ListedOnce(s: State, store: Store, e: Entry)
    requires ManifestOk(s) && IsSnapshotStore(store) && e in Copies(s.manifest, store)
    ensures SnapshotEntry(e) && e.snapshotId in ListedIds(Copies(s.manifest, store))
    ensures e.snapshotId in s.owner && s.owner[e.snapshotId] == store
  {
    var copies := Copies(s.manifest, store);
    var i :| 0 <= i < |copies| && copies[i] == e;
    assert SnapshotEntry(copies[i]);
  }

  lemma KeepsExplained(s: State, s': State, id: SnapshotId)
    requires Explained(s, id) && s.residue <= s'.residue
    requires forall q :: q in s.processes && id in Flux(s.processes[q]) ==>
               id in s'.residue || (q in s'.processes && id in Flux(s'.processes[q]))
    ensures Explained(s', id)
  {
    if id !in s.residue {
      var q :| q in s.processes && id in Flux(s.processes[q]);
    }
  }

  /** When one id changes sides, it must be explained; the others keep their explanation. */
  lemma OneIdChanges(s: State, s': State, pid: nat, ids: set<SnapshotId>)
    requires DisagreementExplained(s) && s.residue <= s'.residue
    requires forall store, x :: IsSnapshotStore(store) && x !in ids && Disagrees(s', store, x) ==>
               Disagrees(s, store, x)
    requires forall store, x :: IsSnapshotStore(store) && x in ids && Disagrees(s', store, x) ==> Explained(s', x)
    requires forall q :: q in s.processes && q != pid ==> q in s'.processes && s'.processes[q] == s.processes[q]
    requires pid in s.processes ==>
               forall x :: x in Flux(s.processes[pid]) && x !in ids ==>
                 x in s'.residue || (pid in s'.processes && x in Flux(s'.processes[pid]))
    ensures DisagreementExplained(s')
  {
    forall store, x | IsSnapshotStore(store) && Disagrees(s', store, x) ensures Explained(s', x) {
      if x !in ids {
        assert Disagrees(s, store, x);
        KeepsExplained(s, s', x);
      }
    }
  }

  /** A split in `s'` either has no replacement yet or was the same before. */
  ghost predicate NoNewParts(s: State, s': State) {
    forall pid :: pid in s'.processes && s'.processes[pid].Splitting? ==>
      s'.processes[pid].ids == [] || (pid in s.processes && s'.processes[pid] == s.processes[pid])
  }

  /** Nothing moves while no snapshot is forgotten and none is added to a split. */
  lemma PlacesStay(s: State, s': State)
    requires NothingLost(s) && PlacesOk(s) && NoNewParts(s, s')
    requires s'.archive == s.archive && s'.places == s.places && s'.removed == s.removed && s'.used == s.used
    requires s'.repo == s.repo
    ensures NothingLost(s') && PlacesOk(s')
  {
  }

  // ---- Steps that create snapshots

  lemma BackUpCoreKeeps(s: State, pid: nat, id: SnapshotId, files: map<Path, File>)
    requires Invariant(s) && pid !in s.processes && id !in s.used && id != ""
    ensures Invariant(AfterCore(s, pid, id, files))
  {
    ManifestAfterCore(s, pid, id, files);
    ProcessesAfterCore(s, pid, id, files);
    DisagreementAfterCore(s, pid, id, files);
    PlansAfterCore(s, pid, id, files);
    PlacesAfterCore(s, pid, id, files);
  }

  lemma ManifestAfterCore(s: State, pid: nat, id: SnapshotId, files: map<Path, File>)
    requires ManifestOk(s) && HistoryOk(s) && id !in s.used
    ensures ManifestOk(AfterCore(s, pid, id, files))
  {
    ManifestUntouched(s, AfterCore(s, pid, id, files));
  }

  lemma PlansAfterCore(s: State, pid: nat, id: SnapshotId, files: map<Path, File>)
    requires PlansOk(s)
    ensures PlansOk(AfterCore(s, pid, id, files))
  {
    PlansUnlessSplitting(s, AfterCore(s, pid, id, files), pid);
  }

  lemma ProcessesAfterCore(s: State, pid: nat, id: SnapshotId, files: map<Path, File>)
    requires HistoryOk(s) && ProcessesOk(s) && pid !in s.processes && id !in s.used && id != ""
    ensures ProcessesOk(AfterCore(s, pid, id, files)) && HistoryOk(AfterCore(s, pid, id, files))
  {
    OneMoreBackedUp(s, AfterCore(s, pid, id, files), pid, id, Snapshot(CORE_TAG, files));
  }

  lemma OneMoreBackedUp(s: State, s': State, pid: nat, id: SnapshotId, taken: Snapshot)
    requires HistoryOk(s) && ProcessesOk(s) && pid !in s.processes && id !in s.used && id != "" && taken.tag == CORE_TAG
    requires s'.repo == s.repo[id := taken] && s'.used == s.used + {id} &&
             s'.processes == s.processes[pid := BackedUp(id)]
    requires s'.owner == s.owner && s'.orphans == s.orphans && s'.residue == s.residue
    ensures ProcessesOk(s') && HistoryOk(s')
  {
    AllFreshInRepo(s);
    OthersStable(s, s', pid);
  }

  /** Plans carry over when the acting process is not a split afterwards. */
  lemma PlansUnlessSplitting(s: State, s': State, pid: nat)
    requires PlansOk(s)
    requires pid in s'.processes ==> !s'.processes[pid].Splitting? && !s'.processes[pid].SplitForgotten?
    requires forall q :: q in s'.processes && q != pid ==> q in s.processes && s'.processes[q] == s.processes[q]
    ensures PlansOk(s')
  {
  }

  lemma DisagreementAfterCore(s: State, pid: nat, id: SnapshotId, files: map<Path, File>)
    requires HistoryOk(s) && ProcessesOk(s) && DisagreementExplained(s) && pid !in s.processes
    ensures DisagreementExplained(AfterCore(s, pid, id, files))
  {
    var s' := AfterCore(s, pid, id, files);
    assert id in Flux(s'.processes[pid]);
    OneIdChanges(s, s', pid, {id});
  }

  lemma PlacesAfterCore(s: State, pid: nat, id: SnapshotId, files: map<Path, File>)
    requires NothingLost(s) && PlacesOk(s) && HistoryOk(s) && ProcessesOk(s) && pid !in s.processes && id !in s.used
    ensures NothingLost(AfterCore(s, pid, id, files)) && PlacesOk(AfterCore(s, pid, id, files))
  {
    KeptAfterCore(s, pid, id, files);
    AddedOneToOne(s.places, id, files);
    SplitsKnow(s);
    AddedUnused(s, AfterCore(s, pid, id, files), pid, id, files);
  }

  lemma AddedUnused(s: State, s': State, pid: nat, id: SnapshotId, files: map<Path, File>)
    requires PlacesOk(s) && id !in s.used && s'.places == s.places + PlacesAt(id, files)
    requires s'.processes == s.processes[pid := BackedUp(id)]
    requires forall q, x :: q in s.processes && s.processes[q].Splitting? && x in s.processes[q].ids ==> x in s.used
    ensures forall o, q :: o in s'.places && q in s'.processes && s'.processes[q].Splitting? ==>
              s'.places[o].snapshot !in s'.processes[q].ids
  {
    forall o, q | o in s'.places && q in s'.processes && s'.processes[q].Splitting?
      ensures s'.places[o].snapshot !in s'.processes[q].ids
    {
      if o !in s.places { assert s'.places[o].snapshot == id; }
    }
  }

  lemma KeptAfterCore(s: State, pid: nat, id: SnapshotId, files: map<Path, File>)
    requires NothingLost(s) && PlacesOk(s) && HistoryOk(s) && id !in s.used
    ensures NothingLost(AfterCore(s, pid, id, files))
  {
    KeptWithFiles(s.repo, s.archive, s.removed, s.places, id, Snapshot(CORE_TAG, files));
  }

  lemma KeptWithFiles(repo: Repository, archive: map<Place, File>, removed: set<Lineage>, places: map<Place, Place>,
                      id: SnapshotId, taken: Snapshot)
    requires Kept(repo, archive, removed, places) && id !in repo
    requires forall o :: o in archive ==> o.snapshot != id
    ensures Kept(repo[id := taken], archive + FilesAt(id, taken.files), removed, places + PlacesAt(id, taken.files))
  {
    var archive', places' := archive + FilesAt(id, taken.files), places + PlacesAt(id, taken.files);
    forall o | o in archive' && !IsRemoved(removed, archive'[o].kind)
      ensures KeptAt(repo[id := taken], o, archive'[o], places')
    {
      if o.snapshot != id { assert KeptAt(repo, o, archive[o], places); }
    }
  }

  lemma AddedOneToOne(places: map<Place, Place>, id: SnapshotId, files: map<Path, File>)
    requires OneToOne(places) && forall o :: o in places ==> o.snapshot != id && places[o].snapshot != id
    ensures OneToOne(places + PlacesAt(id, files))
  {
  }

  /** Replacements of a split have been assigned their ids. */
  lemma SplitsKnow(s: State)
    requires ProcessesOk(s) && HistoryOk(s)
    ensures forall pid, id :: pid in s.processes && s.processes[pid].Splitting? && id in s.processes[pid].ids ==>
              id in s.used
  {
    forall pid, id | pid in s.processes && s.processes[pid].Splitting? && id in s.processes[pid].ids
      ensures id in s.used
    {
      assert ProcessOk(s, s.processes[pid]);
    }
  }

  lemma BackUpPartKeeps(s: State, pid: nat, id: SnapshotId)
    requires Invariant(s) && CanTakePart(s, pid, id)
    ensures Invariant(AfterPart(s, pid, id))
  {
    ProcessesAfterPart(s, pid, id);
    StoresAfterPart(s, pid, id);
    PlansAfterPart(s, pid, id);
    PlacesAfterPart(s, pid, id);
  }

  lemma StoresAfterPart(s: State, pid: nat, id: SnapshotId)
    requires ManifestOk(s) && HistoryOk(s) && CanTakePart(s, pid, id)
    ensures ManifestOk(AfterPart(s, pid, id)) && HistoryOk(AfterPart(s, pid, id))
  {
    ManifestUntouched(s, AfterPart(s, pid, id));
  }

  /** A replacement is fresh, so nothing is kept in it yet. */
  lemma PlacesAfterPart(s: State, pid: nat, id: SnapshotId)
    requires NothingLost(s) && PlacesOk(s) && HistoryOk(s) && CanTakePart(s, pid, id)
    ensures NothingLost(AfterPart(s, pid, id)) && PlacesOk(AfterPart(s, pid, id))
  {
    var s' := AfterPart(s, pid, id);
    forall o | o in s.archive && !IsRemoved(s.removed, s.archive[o].kind)
      ensures KeptAt(s'.repo, o, s.archive[o], s.places)
    {
      assert KeptAt(s.repo, o, s.archive[o], s.places);
    }
  }

  lemma ProcessesAfterPart(s: State, pid: nat, id: SnapshotId)
    requires HistoryOk(s) && ProcessesOk(s) && DisagreementExplained(s) && CanTakePart(s, pid, id)
    ensures ProcessesOk(AfterPart(s, pid, id)) && DisagreementExplained(AfterPart(s, pid, id))
  {
    var s' := AfterPart(s, pid, id);
    AllFreshInRepo(s);
    PartTaken(s, pid, id);
    OthersStable(s, s', pid);
    DisagreementAfterPart(s, pid, id);
  }

  lemma DisagreementAfterPart(s: State, pid: nat, id: SnapshotId)
    requires HistoryOk(s) && ProcessesOk(s) && DisagreementExplained(s) && CanTakePart(s, pid, id)
    ensures DisagreementExplained(AfterPart(s, pid, id))
  {
    var s' := AfterPart(s, pid, id);
    PartTaken(s, pid, id);
    assert id in Flux(s'.processes[pid]);
    OneIdChanges(s, s', pid, {id});
  }

  lemma PlansAfterPart(s: State, pid: nat, id: SnapshotId)
    requires PlansOk(s) && CanTakePart(s, pid, id)
    ensures PlansOk(AfterPart(s, pid, id))
  {
    var Splitting(job, ids) := s.processes[pid];
    assert Planned(s.processes[pid]);
    OnePlanned(s.processes, pid, Splitting(job, ids + [id]));
  }

  lemma OnePlanned(processes: map<nat, Process>, pid: nat, p: Process)
    requires AllPlanned(processes) && Planned(p)
    ensures AllPlanned(processes[pid := p])
  {
    var after := processes[pid := p];
    forall q | q in after ensures Planned(after[q]) {
      if q != pid { assert Planned(processes[q]); }
    }
  }

  /** The splitting process itself after one more replacement. */
  lemma PartTaken(s: State, pid: nat, id: SnapshotId)
    requires HistoryOk(s) && ProcessesOk(s) && CanTakePart(s, pid, id)
    ensures ProcessOk(AfterPart(s, pid, id), AfterPart(s, pid, id).processes[pid])
    ensures Fresh(AfterPart(s, pid, id).processes[pid]) == Fresh(s.processes[pid]) + {id}
    ensures Flux(AfterPart(s, pid, id).processes[pid]) == Flux(s.processes[pid]) + {id}
  {
    var s' := AfterPart(s, pid, id);
    var Splitting(job, ids) := s.processes[pid];
    assert ProcessOk(s, s.processes[pid]);
    assert IdSet(ids + [id]) == IdSet(ids) + {id};
    JobStable(s, s', job, ids);
    var all := ids + [id];
    forall k | 0 <= k < |all|
      ensures all[k] in s'.repo && s'.repo[all[k]] == Snapshot(job.parts[k].Tag(), job.parts[k].files)
    {
      if k < |ids| { assert all[k] == ids[k]; }
    }
    assert JobOk(s', job, all);
  }

  // ---- Steps that forget snapshots

  /** Forgetting a listed snapshot leaves every fresh or orphaned one in place. */
  lemma ForgetEvolves(s: State, s': State, pid: nat, id: SnapshotId)
    requires ManifestOk(s) && HistoryOk(s) && ProcessesOk(s) && DisagreementExplained(s)
    requires id in s.owner && pid in s.processes
    requires s'.repo == s.repo - {id} && s'.manifest == s.manifest
    requires s'.processes.Keys == s.processes.Keys
    requires forall q :: q in s.processes && q != pid ==> s'.processes[q] == s.processes[q]
    requires Fresh(s'.processes[pid]) == Fresh(s.processes[pid])
    requires Flux(s.processes[pid]) + {id} <= Flux(s'.processes[pid])
    requires s'.used == s.used && s'.owner == s.owner && s'.residue == s.residue
    requires s'.orphans == s.orphans
    requires ProcessOk(s', s'.processes[pid])
    ensures ManifestOk(s') && HistoryOk(s') && ProcessesOk(s') && DisagreementExplained(s')
  {
    ManifestUntouched(s, s');
    AllFreshInRepo(s);
    OthersStable(s, s', pid);
    ForgetExplained(s, s', pid, id);
  }

  lemma ForgetExplained(s: State, s': State, pid: nat, id: SnapshotId)
    requires DisagreementExplained(s) && pid in s.processes
    requires s'.repo == s.repo - {id} && s'.manifest == s.manifest && s'.residue == s.residue
    requires s'.processes.Keys == s.processes.Keys
    requires forall q :: q in s.processes && q != pid ==> s'.processes[q] == s.processes[q]
    requires Flux(s.processes[pid]) + {id} <= Flux(s'.processes[pid])
    ensures DisagreementExplained(s')
  {
    OneIdChanges(s, s', pid, {id});
  }

  /** The replacements hold every file of the mixed snapshot outside the removed lineage, at
      its path below the prefix. */
  lemma PartsHoldRetained(s: State, job: Job, ids: seq<SnapshotId>, q: Path)
    requires SplitPlan(job) && JobOk(s, job, ids) && |ids| == |job.parts|
    requires q in job.tree && job.tree[q].kind != Message(job.target)
    ensures exists k, p :: InPart(job, k, p, q)
    ensures forall k, p :: InPart(job, k, p, q) ==> HeldAt(s.repo, Place(ids[k], p), job.tree[q])
  {
    PlanHoldsRetained(job, q);
    forall k, p | InPart(job, k, p, q) ensures HeldAt(s.repo, Place(ids[k], p), job.tree[q]) {
      assert s.repo[ids[k]] == Snapshot(job.parts[k].Tag(), job.parts[k].files);
    }
  }

  lemma PlanHoldsRetained(job: Job, q: Path)
    requires SplitPlan(job) && q in job.tree && job.tree[q].kind != Message(job.target)
    ensures exists k, p :: InPart(job, k, p, q)
    ensures forall k, p :: InPart(job, k, p, q) ==> job.parts[k].files[p] == job.tree[q]
  {
    SplitConserves(job.tree, job.prefix, job.entries, job.target, job.parts);
    var k, p :| 0 <= k < |job.parts| && p in job.parts[k].files && FullPath(job.prefix, p) == q;
    assert InPart(job, k, p, q);
  }

  lemma ForgetMixedKeeps(s: State, pid: nat)
    requires Invariant(s) && CanForgetMixed(s, pid)
    ensures Invariant(AfterForgetMixed(s, pid))
  {
    StoresAfterForgetMixed(s, pid);
    PlansAfterForgetMixed(s, pid);
    KeptAfterForgetMixed(s, pid);
    PlacesAfterForgetMixed(s, pid);
  }

  lemma StoresAfterForgetMixed(s: State, pid: nat)
    requires ManifestOk(s) && HistoryOk(s) && ProcessesOk(s) && DisagreementExplained(s) && CanForgetMixed(s, pid)
    ensures var s' := AfterForgetMixed(s, pid);
            ManifestOk(s') && HistoryOk(s') && ProcessesOk(s') && DisagreementExplained(s')
  {
    MixedForgotten(s, pid);
    ForgetEvolves(s, AfterForgetMixed(s, pid), pid, s.processes[pid].job.mixed.snapshotId);
  }

  lemma PlansAfterForgetMixed(s: State, pid: nat)
    requires PlansOk(s) && CanForgetMixed(s, pid)
    ensures PlansOk(AfterForgetMixed(s, pid))
  {
    assert SplitPlan(s.processes[pid].job);
  }

  lemma MixedForgotten(s: State, pid: nat)
    requires HistoryOk(s) && ProcessesOk(s) && CanForgetMixed(s, pid)
    ensures ProcessOk(AfterForgetMixed(s, pid), AfterForgetMixed(s, pid).processes[pid])
    ensures s.processes[pid].job.mixed.snapshotId in s.owner
  {
    var s' := AfterForgetMixed(s, pid);
    var Splitting(job, ids) := s.processes[pid];
    assert ProcessOk(s, s.processes[pid]);
    assert forall k :: 0 <= k < |ids| ==> ids[k] in Fresh(s.processes[pid]);
    JobStable(s, s', job, ids);
  }

  lemma TailOfTail(p: Path, q: Path, o: Path)
    requires IsTail(p, q) && IsTail(q, o)
    ensures IsTail(p, o)
  {
    if p != q && q != o {
      assert o[|o| - |q|..][|q| - |p|..] == o[|o| - |p|..];
    }
  }

  lemma FullPathTail(prefix: string, p: Path)
    ensures IsTail(p, FullPath(prefix, p))
  {
  }

  /** A file that is kept in the mixed snapshot moves to its replacement; others stay. */
  lemma KeptAfterForgetMixed(s: State, pid: nat)
    requires HistoryOk(s) && ProcessesOk(s) && PlansOk(s) && NothingLost(s) && CanForgetMixed(s, pid)
    ensures NothingLost(AfterForgetMixed(s, pid))
  {
    var s' := AfterForgetMixed(s, pid);
    forall o | o in s'.archive && !IsRemoved(s'.removed, s'.archive[o].kind)
      ensures KeptAt(s'.repo, o, s'.archive[o], s'.places)
    {
      assert KeptAt(s.repo, o, s.archive[o], s.places);
      MovedPlace(s, pid, s.places[o], s.archive[o]);
      TailOfTail(s'.places[o].path, s.places[o].path, o.path);
    }
  }

  lemma MovedPlace(s: State, pid: nat, at: Place, f: File)
    requires HistoryOk(s) && ProcessesOk(s) && PlansOk(s) && CanForgetMixed(s, pid) && HeldAt(s.repo, at, f)
    requires f.kind != Message(s.processes[pid].job.target)
    ensures var to := Move(s.processes[pid].job, s.processes[pid].ids, at);
            HeldAt(AfterForgetMixed(s, pid).repo, to, f) && IsTail(to.path, at.path)
  {
    var Splitting(job, ids) := s.processes[pid];
    assert ProcessOk(s, s.processes[pid]);
    if at.snapshot == job.mixed.snapshotId {
      MovedOut(s, job, ids, at, f);
      assert Move(job, ids, at).snapshot in Fresh(s.processes[pid]);
    }
  }

  lemma MovedOut(s: State, job: Job, ids: seq<SnapshotId>, at: Place, f: File)
    requires SplitPlan(job) && JobOk(s, job, ids) && |ids| == |job.parts| && HeldAt(s.repo, at, f)
    requires at.snapshot == job.mixed.snapshotId && f.kind != Message(job.target)
    ensures var to := Move(job, ids, at);
            to.snapshot in ids && HeldAt(s.repo, to, f) && IsTail(to.path, at.path)
  {
    PartsHoldRetained(s, job, ids, at.path);
    var k := MoveFollows(job, ids, at);
    FullPathTail(job.prefix, Move(job, ids, at).path);
  }

  lemma MoveFollows(job: Job, ids: seq<SnapshotId>, at: Place) returns (k: int)
    requires |ids| == |job.parts| && at.snapshot == job.mixed.snapshotId && exists k, p :: InPart(job, k, p, at.path)
    ensures var to := Move(job, ids, at); InPart(job, k, to.path, at.path) && to.snapshot == ids[k]
  {
    var i, p :| InPart(job, i, p, at.path) && Move(job, ids, at) == Place(ids[i], p);
    k := i;
  }

  /** Files move one to one: different paths of the mixed snapshot to different paths of the
      replacements, in which nothing was kept before. */
  lemma PlacesAfterForgetMixed(s: State, pid: nat)
    requires HistoryOk(s) && ProcessesOk(s) && PlacesOk(s) && CanForgetMixed(s, pid)
    ensures PlacesOk(AfterForgetMixed(s, pid))
  {
    var Splitting(job, ids) := s.processes[pid];
    assert ProcessOk(s, s.processes[pid]);
    SplitsKnow(s);
    MovedOneToOne(job, ids, s.places);
    assert forall id :: id in ids ==> id in Fresh(s.processes[pid]);
    MovedAway(s, AfterForgetMixed(s, pid), pid, job, ids);
  }

  /** What has moved lies in no split that is still under way. */
  lemma MovedAway(s: State, s': State, pid: nat, job: Job, ids: seq<SnapshotId>)
    requires PlacesOk(s) && ProcessesOk(s) && pid in s.processes && s.processes[pid] == Splitting(job, ids) &&
             |ids| == |job.parts|
    requires s'.places == Moved(job, ids, s.places) && s'.processes == s.processes[pid := SplitForgotten(job, ids)]
    requires forall o :: o in s.places ==> s'.places[o].snapshot == s.places[o].snapshot || s'.places[o].snapshot in ids
    ensures forall o, q :: o in s'.places && q in s'.processes && s'.processes[q].Splitting? ==>
              s'.places[o].snapshot !in s'.processes[q].ids
  {
    forall o, q | o in s'.places && q in s'.processes && s'.processes[q].Splitting?
      ensures s'.places[o].snapshot !in s'.processes[q].ids
    {
      assert q != pid && Fresh(s.processes[q]) !! Fresh(s.processes[pid]);
      assert s.places[o].snapshot !in s.processes[q].ids;
      if s'.places[o].snapshot in ids { assert s'.places[o].snapshot in Fresh(s.processes[pid]); }
    }
  }

  lemma MovedOneToOne(job: Job, ids: seq<SnapshotId>, places: map<Place, Place>)
    requires |ids| == |job.parts| && OneToOne(places) && forall o :: o in places ==> places[o].snapshot !in ids
    ensures OneToOne(Moved(job, ids, places))
    ensures forall o :: o in places ==>
              Moved(job, ids, places)[o].snapshot == places[o].snapshot || Moved(job, ids, places)[o].snapshot in ids
  {
    var moved := Moved(job, ids, places);
    forall o | o in places ensures moved[o].snapshot == places[o].snapshot || moved[o].snapshot in ids {
      MoveTarget(job, ids, places[o]);
    }
    forall o, q | o in places && q in places && o != q ensures moved[o] != moved[q] {
      MoveOneToOne(job, ids, places[o], places[q]);
    }
  }

  lemma MoveTarget(job: Job, ids: seq<SnapshotId>, at: Place)
    requires |ids| == |job.parts|
    ensures var to := Move(job, ids, at);
            || to == at
            || (at.snapshot == job.mixed.snapshotId && to.snapshot in ids && FullPath(job.prefix, to.path) == at.path)
  {
  }

  lemma MoveOneToOne(job: Job, ids: seq<SnapshotId>, x: Place, y: Place)
    requires |ids| == |job.parts| && x != y && x.snapshot !in ids && y.snapshot !in ids
    ensures Move(job, ids, x) != Move(job, ids, y)
  {
    MoveTarget(job, ids, x);
    MoveTarget(job, ids, y);
    FullPathInjective(job.prefix, Move(job, ids, x).path, Move(job, ids, y).path);
  }

  lemma ForgetExclusiveKeeps(s: State, pid: nat, copy: Entry)
    requires Invariant(s) && pid in s.processes && s.processes[pid].Requested? && s.processes[pid].copy == copy
    requires copy.classes == ["message"] && copy.exclusive
    ensures Invariant(AfterForgetExclusive(s, pid, copy))
  {
    RequestedIsPure(s, pid);
    ForgetExclusiveEvolves(s, pid, copy);
    PlansUnlessSplitting(s, AfterForgetExclusive(s, pid, copy), pid);
    KeptAfterForgetExclusive(s, pid, copy);
  }

  lemma RequestedIsPure(s: State, pid: nat)
    requires ProcessesOk(s) && pid in s.processes && s.processes[pid].Requested?
    ensures Pure(s.repo, s.processes[pid].copy)
  {
    assert ProcessOk(s, s.processes[pid]);
  }

  lemma ForgetExclusiveEvolves(s: State, pid: nat, copy: Entry)
    requires ManifestOk(s) && HistoryOk(s) && ProcessesOk(s) && DisagreementExplained(s)
    requires pid in s.processes && s.processes[pid].Requested? && s.processes[pid].copy == copy
    ensures var s' := AfterForgetExclusive(s, pid, copy);
            ManifestOk(s') && HistoryOk(s') && ProcessesOk(s') && DisagreementExplained(s')
  {
    assert ProcessOk(s, s.processes[pid]);
    ForgetEvolves(s, AfterForgetExclusive(s, pid, copy), pid, copy.snapshotId);
  }

  lemma KeptAfterForgetExclusive(s: State, pid: nat, copy: Entry)
    requires NothingLost(s) && Pure(s.repo, copy) && copy.classes == ["message"] && copy.exclusive
    ensures NothingLost(AfterForgetExclusive(s, pid, copy))
  {
    var s' := AfterForgetExclusive(s, pid, copy);
    forall o | o in s'.archive && !IsRemoved(s'.removed, s'.archive[o].kind)
      ensures KeptAt(s'.repo, o, s'.archive[o], s'.places)
    {
      assert KeptAt(s.repo, o, s.archive[o], s.places);
      assert s.places[o].snapshot != copy.snapshotId;
    }
  }

  // ---- Steps that write the manifest

  /** A process that ends leaves the others as they were. */
  lemma RetiredProcess(s: State, s': State, pid: nat, ids: set<SnapshotId>)
    requires HistoryOk(s) && ProcessesOk(s) && pid in s.processes && s'.processes == s.processes - {pid}
    requires s'.repo == s.repo && OwnersKept(s, s')
    requires ids <= Fresh(s.processes[pid])
    requires s'.owner.Keys + s'.orphans <= s.owner.Keys + s.orphans + ids
    ensures ProcessesOk(s')
  {
    AllFreshInRepo(s);
    OthersStable(s, s', pid);
  }

  lemma MergeCoreKeeps(s: State, pid: nat)
    requires Invariant(s) && CanMerge(s, pid)
    ensures Invariant(AfterMerge(s, pid))
  {
    var s' := AfterMerge(s, pid);
    MergedManifest(s, pid);
    assert ProcessOk(s, s.processes[pid]);
    RetiredProcess(s, s', pid, {s.processes[pid].id});
    PlacesStay(s, s');
  }

  lemma MergedManifest(s: State, pid: nat)
    requires ManifestOk(s) && HistoryOk(s) && ProcessesOk(s) && DisagreementExplained(s)
    requires CanMerge(s, pid)
    ensures ManifestOk(AfterMerge(s, pid)) && DisagreementExplained(AfterMerge(s, pid))
  {
    var id := s.processes[pid].id;
    assert ProcessOk(s, s.processes[pid]) && id in Fresh(s.processes[pid]);
    MergedStores(s, AfterMerge(s, pid), id);
    MergedAgreement(s, AfterMerge(s, pid), pid, id);
  }

  /** The manifest after a merge lists one snapshot more. */
  lemma MergedIds(m: Manifest, id: SnapshotId)
    requires SnapshotEntries(Copies(m, ResticSnapshot)) && UniqueReferences(Copies(m, ResticSnapshot)) && id != ""
    ensures var after := AppendNew(Copies(m, ResticSnapshot), [CoreEntry(id)]);
            && SnapshotEntries(after) && UniqueReferences(after)
            && ListedIds(after) == ListedIds(Copies(m, ResticSnapshot)) + {id}
            && forall e :: e in after ==> e in Copies(m, ResticSnapshot) || e == CoreEntry(id)
  {
    var before, added := Copies(m, ResticSnapshot), [CoreEntry(id)];
    AppendedEntries(before, added);
    AppendedIds(before, added);
    assert ListedIds(added) == {id} by { assert added[0].snapshotId == id; }
  }

  lemma MergedStores(s: State, s': State, id: SnapshotId)
    requires ManifestOk(s) && id != "" && id !in s.owner && s'.repo == s.repo &&
             s'.owner == s.owner[id := ResticSnapshot]
    requires s'.manifest == s.manifest[ResticSnapshot := AppendNew(Copies(s.manifest, ResticSnapshot), [CoreEntry(id)])]
    ensures ManifestOk(s')
  {
    MergedIds(s.manifest, id);
    assert forall store :: store != ResticSnapshot ==> Copies(s'.manifest, store) == Copies(s.manifest, store);
  }

  lemma MergedAgreement(s: State, s': State, pid: nat, id: SnapshotId)
    requires ManifestOk(s) && DisagreementExplained(s) && pid in s.processes && s.processes[pid] == BackedUp(id) &&
             id != ""
    requires id in s.repo && s.repo[id].tag == CORE_TAG && s'.repo == s.repo && s'.residue == s.residue
    requires s'.processes == s.processes - {pid}
    requires s'.manifest == s.manifest[ResticSnapshot := AppendNew(Copies(s.manifest, ResticSnapshot), [CoreEntry(id)])]
    requires forall store :: IsSnapshotStore(store) && store != ResticSnapshot ==>
               id !in ListedIds(Copies(s.manifest, store))
    ensures DisagreementExplained(s')
  {
    MergedIds(s.manifest, id);
    assert forall store :: store != ResticSnapshot ==> Copies(s'.manifest, store) == Copies(s.manifest, store);
    forall store | IsSnapshotStore(store) ensures !Disagrees(s', store, id) {
      TagsSeparate(store);
    }
    OneIdChanges(s, s', pid, {id});
  }

  lemma RemoveEntryKeeps(s: State, pid: nat)
    requires Invariant(s) && CanRemoveEntry(s, pid)
    ensures Invariant(AfterRemoveEntry(s, pid))
  {
    var s' := AfterRemoveEntry(s, pid);
    EntryRemoved(s, pid);
    RetiredProcess(s, s', pid, {});
    PlacesStay(s, s');
  }

  lemma EntryRemoved(s: State, pid: nat)
    requires ManifestOk(s) && HistoryOk(s) && ProcessesOk(s) && DisagreementExplained(s)
    requires CanRemoveEntry(s, pid)
    ensures ManifestOk(AfterRemoveEntry(s, pid)) && DisagreementExplained(AfterRemoveEntry(s, pid))
  {
    var s' := AfterRemoveEntry(s, pid);
    var copy := s.processes[pid].copy;
    var before := Copies(s.manifest, ResticSnapshot);
    assert ProcessOk(s, s.processes[pid]);
    WithoutEntries(before, copy.reference);
    WithoutIds(before, copy.snapshotId);
    assert forall store :: store != ResticSnapshot ==> Copies(s'.manifest, store) == Copies(s.manifest, store);
    OneIdChanges(s, s', pid, {copy.snapshotId});
  }

  lemma {:induction false} PartOwnersKeys(job: Job, ids: seq<SnapshotId>)
    requires |ids| <= |job.parts|
    ensures PartOwners(job, ids).Keys == IdSet(ids)
  {
    if ids != [] {
      var n := |ids| - 1;
      PartOwnersKeys(job, ids[..n]);
      assert ids == ids[..n] + [ids[n]];
      IdSetNext(ids[..n], ids[n]);
    }
  }

  lemma {:induction false} PartOwnerAt(job: Job, ids: seq<SnapshotId>, k: nat)
    requires k < |ids| <= |job.parts|
    requires forall j, k :: 0 <= j < k < |ids| ==> ids[j] != ids[k]
    ensures ids[k] in PartOwners(job, ids) && PartOwners(job, ids)[ids[k]] == job.parts[k].StoreOf()
  {
    if k < |ids| - 1 { PartOwnerAt(job, ids[..|ids| - 1], k); }
  }

  lemma PartOwnersAre(job: Job, ids: seq<SnapshotId>)
    requires |ids| <= |job.parts|
    requires forall j, k :: 0 <= j < k < |ids| ==> ids[j] != ids[k]
    ensures PartOwners(job, ids).Keys == IdSet(ids)
    ensures forall k :: 0 <= k < |ids| ==>
              ids[k] in PartOwners(job, ids) && PartOwners(job, ids)[ids[k]] == job.parts[k].StoreOf()
  {
    PartOwnersKeys(job, ids);
    forall k | 0 <= k < |ids|
      ensures ids[k] in PartOwners(job, ids) && PartOwners(job, ids)[ids[k]] == job.parts[k].StoreOf()
    {
      PartOwnerAt(job, ids, k);
    }
  }

  lemma IdSetNext(ids: seq<SnapshotId>, id: SnapshotId)
    ensures IdSet(ids + [id]) == IdSet(ids) + {id}
  {
  }

  /** The entries written for one store: exactly the replacements it owns, each once. */
  lemma {:induction false} PartEntriesAre(job: Job, ids: seq<SnapshotId>, store: Store)
    requires |ids| <= |job.parts| && "" !in ids
    ensures SnapshotEntries(PartEntries(job, ids, store))
    ensures forall e :: e in PartEntries(job, ids, store) ==>
              exists k :: 0 <= k < |ids| && e == PartEntry(job, k, ids[k]) && job.parts[k].StoreOf() == store
    ensures forall k :: 0 <= k < |ids| && job.parts[k].StoreOf() == store ==>
              PartEntry(job, k, ids[k]) in PartEntries(job, ids, store)
  {
    if ids != [] {
      var n := |ids| - 1;
      var shorter := ids[..n];
      PartEntriesAre(job, shorter, store);
      var rest := PartEntries(job, shorter, store);
      forall e | e in PartEntries(job, ids, store)
        ensures exists k :: 0 <= k < |ids| && e == PartEntry(job, k, ids[k]) && job.parts[k].StoreOf() == store
      {
        if e in rest {
          var k :| 0 <= k < n && e == PartEntry(job, k, shorter[k]) && job.parts[k].StoreOf() == store;
          assert ids[k] == shorter[k];
        } else {
          assert e == PartEntry(job, n, ids[n]);
        }
      }
      forall k | 0 <= k < |ids| && job.parts[k].StoreOf() == store
        ensures PartEntry(job, k, ids[k]) in PartEntries(job, ids, store)
      {
        if k < n { assert shorter[k] == ids[k]; }
      }
      assert ids[n] in ids;
    }
  }

  lemma ReplaceManifestKeeps(s: State, pid: nat)
    requires Invariant(s) && CanReplace(s, pid)
    ensures Invariant(AfterReplace(s, pid))
  {
    ProcessesAfterReplace(s, pid);
    ManifestAfterReplace(s, pid);
    DisagreementAfterReplace(s, pid);
    PlansAfterReplace(s, pid);
    PlacesAfterReplace(s, pid);
  }

  lemma PlacesAfterReplace(s: State, pid: nat)
    requires NothingLost(s) && PlacesOk(s) && CanReplace(s, pid)
    ensures NothingLost(AfterReplace(s, pid)) && PlacesOk(AfterReplace(s, pid))
  {
    PlacesStay(s, AfterReplace(s, pid));
  }

  lemma PlansAfterReplace(s: State, pid: nat)
    requires PlansOk(s) && CanReplace(s, pid)
    ensures PlansOk(AfterReplace(s, pid))
  {
    var s' := AfterReplace(s, pid);
    assert forall pid :: pid in s'.processes ==> s'.processes[pid] == s.processes[pid];
  }

  lemma ProcessesAfterReplace(s: State, pid: nat)
    requires HistoryOk(s) && ProcessesOk(s) && CanReplace(s, pid)
    ensures HistoryOk(AfterReplace(s, pid)) && ProcessesOk(AfterReplace(s, pid))
  {
    var s' := AfterReplace(s, pid);
    var SplitForgotten(job, ids) := s.processes[pid];
    assert ProcessOk(s, s.processes[pid]);
    FreshInRepo(s, s.processes[pid]);
    PartOwnersAre(job, ids);
    assert s'.owner.Keys == s.owner.Keys + IdSet(ids);
    RetiredProcess(s, s', pid, IdSet(ids));
  }

  /** What each snapshot store lists once the split is recorded. */
  lemma ListedAfterSplit(s: State, pid: nat, store: Store)
    requires ManifestOk(s) && HistoryOk(s) && ProcessesOk(s) && CanReplace(s, pid) && IsSnapshotStore(store)
    ensures var s' := AfterReplace(s, pid);
            var SplitForgotten(job, ids) := s.processes[pid];
            && SnapshotEntries(Copies(s'.manifest, store))
            && UniqueReferences(Copies(s'.manifest, store))
            && (forall id :: id in ListedIds(Copies(s'.manifest, store)) <==>
                  || (id in ListedIds(Copies(s.manifest, store)) && id != job.mixed.snapshotId)
                  || exists k :: 0 <= k < |ids| && ids[k] == id && job.parts[k].StoreOf() == store)
  {
    var SplitForgotten(job, ids) := s.processes[pid];
    assert ProcessOk(s, s.processes[pid]);
    FreshInRepo(s, s.processes[pid]);
    assert forall id :: id in ids ==> id in Fresh(s.processes[pid]);
    ListedAfterReplace(s.manifest, job, ids, store);
  }

  lemma ListedAfterReplace(m: Manifest, job: Job, ids: seq<SnapshotId>, store: Store)
    requires IsSnapshotStore(store) && |ids| <= |job.parts| && "" !in ids && SnapshotEntry(job.mixed)
    requires SnapshotEntries(Copies(m, store)) && UniqueReferences(Copies(m, store))
    requires store != ResticSnapshot ==> job.mixed.snapshotId !in ListedIds(Copies(m, store))
    ensures var after := Copies(ManifestAfterSplit(m, job, ids), store);
            && SnapshotEntries(after) && UniqueReferences(after)
            && (forall id :: id in ListedIds(after) <==>
                  || (id in ListedIds(Copies(m, store)) && id != job.mixed.snapshotId)
                  || exists k :: 0 <= k < |ids| && ids[k] == id && job.parts[k].StoreOf() == store)
  {
    var before := Copies(m, store);
    var base := if store == ResticSnapshot then Without(before, job.mixed.reference) else before;
    assert Copies(ManifestAfterSplit(m, job, ids), store) == AppendNew(base, PartEntries(job, ids, store));
    WithoutEntries(before, job.mixed.reference);
    WithoutIds(before, job.mixed.snapshotId);
    ListedAfterAppend(base, job, ids, store);
  }

  lemma ListedAfterAppend(base: seq<Entry>, job: Job, ids: seq<SnapshotId>, store: Store)
    requires |ids| <= |job.parts| && "" !in ids && SnapshotEntries(base) && UniqueReferences(base)
    ensures var after := AppendNew(base, PartEntries(job, ids, store));
            && SnapshotEntries(after) && UniqueReferences(after)
            && (forall id :: id in ListedIds(after) <==>
                  || id in ListedIds(base)
                  || exists k :: 0 <= k < |ids| && ids[k] == id && job.parts[k].StoreOf() == store)
  {
    var added := PartEntries(job, ids, store);
    PartEntriesAre(job, ids, store);
    AppendedEntries(base, added);
    AppendedIds(base, added);
    AddedIds(job, ids, store);
  }

  lemma AddedIds(job: Job, ids: seq<SnapshotId>, store: Store)
    requires |ids| <= |job.parts| && "" !in ids
    ensures forall id :: id in ListedIds(PartEntries(job, ids, store)) <==>
              exists k :: 0 <= k < |ids| && ids[k] == id && job.parts[k].StoreOf() == store
  {
    var added := PartEntries(job, ids, store);
    PartEntriesAre(job, ids, store);
    forall id | id in ListedIds(added)
      ensures exists k :: 0 <= k < |ids| && ids[k] == id && job.parts[k].StoreOf() == store
    {
      var i :| 0 <= i < |added| && added[i].snapshotId == id;
      assert added[i] in added;
    }
    forall k | 0 <= k < |ids| && job.parts[k].StoreOf() == store ensures ids[k] in ListedIds(added) {
      var e := PartEntry(job, k, ids[k]);
      assert e in added;
      var i :| 0 <= i < |added| && added[i] == e;
      assert ids[k] in ids;
    }
  }

  lemma ManifestAfterReplace(s: State, pid: nat)
    requires ManifestOk(s) && HistoryOk(s) && ProcessesOk(s) && PlansOk(s) && CanReplace(s, pid)
    ensures ManifestOk(AfterReplace(s, pid))
  {
    PureAfterReplace(s, pid);
    StoresAfterReplace(s, pid);
  }

  lemma StoresAfterReplace(s: State, pid: nat)
    requires ManifestOk(s) && HistoryOk(s) && ProcessesOk(s) && CanReplace(s, pid)
    ensures StoresOk(AfterReplace(s, pid))
  {
    var s' := AfterReplace(s, pid);
    forall store: Store ensures UniqueReferences(Copies(s'.manifest, store)) { StoreAfterReplace(s, pid, store); }
    forall store: Store | IsSnapshotStore(store)
      ensures SnapshotEntries(Copies(s'.manifest, store))
      ensures forall id :: id in ListedIds(Copies(s'.manifest, store)) ==> id in s'.owner && s'.owner[id] == store
    {
      StoreAfterReplace(s, pid, store);
    }
  }

  lemma StoreAfterReplace(s: State, pid: nat, store: Store)
    requires ManifestOk(s) && HistoryOk(s) && ProcessesOk(s) && CanReplace(s, pid)
    ensures UniqueReferences(Copies(AfterReplace(s, pid).manifest, store))
    ensures IsSnapshotStore(store) ==>
              var s' := AfterReplace(s, pid);
              && SnapshotEntries(Copies(s'.manifest, store))
              && forall id :: id in ListedIds(Copies(s'.manifest, store)) ==> id in s'.owner && s'.owner[id] == store
  {
    if IsSnapshotStore(store) {
      SnapshotStoreAfterReplace(s, pid, store);
    } else {
      assert Copies(AfterReplace(s, pid).manifest, store) == Copies(s.manifest, store);
    }
  }

  lemma SnapshotStoreAfterReplace(s: State, pid: nat, store: Store)
    requires ManifestOk(s) && HistoryOk(s) && ProcessesOk(s) && CanReplace(s, pid) && IsSnapshotStore(store)
    ensures var s' := AfterReplace(s, pid);
            && UniqueReferences(Copies(s'.manifest, store)) && SnapshotEntries(Copies(s'.manifest, store))
            && forall id :: id in ListedIds(Copies(s'.manifest, store)) ==> id in s'.owner && s'.owner[id] == store
  {
    var s' := AfterReplace(s, pid);
    assert ProcessOk(s, s.processes[pid]);
    ListedAfterSplit(s, pid, store);
    forall id | id in ListedIds(Copies(s'.manifest, store)) ensures id in s'.owner && s'.owner[id] == store {
      OwnedAfterSplit(s, s.processes[pid], store, id);
    }
  }

  lemma OwnedAfterSplit(s: State, p: Process, store: Store, id: SnapshotId)
    requires p.SplitForgotten? && ProcessOk(s, p)
    requires || (id in s.owner && s.owner[id] == store)
             || exists k :: 0 <= k < |p.ids| && p.ids[k] == id && p.job.parts[k].StoreOf() == store
    ensures var owner := s.owner + PartOwners(p.job, p.ids); id in owner && owner[id] == store
  {
    PartOwnersAre(p.job, p.ids);
    if id in p.ids {
      assert id in Fresh(p);
    }
  }

  lemma PureAfterReplace(s: State, pid: nat)
    requires ManifestOk(s) && HistoryOk(s) && ProcessesOk(s) && PlansOk(s) && CanReplace(s, pid)
    ensures forall e :: e in Copies(AfterReplace(s, pid).manifest, ResticSnapshot) ==> Pure(s.repo, e)
  {
    var p := s.processes[pid];
    ResticAfterSplit(s.manifest, p.job, p.ids);
    assert ProcessOk(s, p) && SplitPlan(p.job);
    PlannedPartsArePure(s, p);
    KeptArePure(s.repo, Copies(s.manifest, ResticSnapshot), p.job.mixed.reference,
                PartEntries(p.job, p.ids, ResticSnapshot));
  }

  lemma ResticAfterSplit(m: Manifest, job: Job, ids: seq<SnapshotId>)
    requires |ids| <= |job.parts|
    ensures Copies(ManifestAfterSplit(m, job, ids), ResticSnapshot) ==
            AppendNew(Without(Copies(m, ResticSnapshot), job.mixed.reference), PartEntries(job, ids, ResticSnapshot))
  {
  }

  lemma PlannedPartsArePure(s: State, p: Process)
    requires HistoryOk(s) && p.SplitForgotten? && ProcessOk(s, p) && SplitPlan(p.job)
    ensures forall e :: e in PartEntries(p.job, p.ids, ResticSnapshot) ==> Pure(s.repo, e)
  {
    FreshInRepo(s, p);
    AddedArePure(s, p.job, p.ids);
  }

  lemma KeptArePure(repo: Repository, copies: seq<Entry>, reference: string, added: seq<Entry>)
    requires forall e :: e in copies ==> Pure(repo, e)
    requires forall e :: e in added ==> Pure(repo, e)
    ensures forall e :: e in AppendNew(Without(copies, reference), added) ==> Pure(repo, e)
  {
    WithoutEntries(copies, reference);
    AppendedEntries(Without(copies, reference), added);
  }

  lemma AddedArePure(s: State, job: Job, ids: seq<SnapshotId>)
    requires SplitPlan(job) && JobOk(s, job, ids) && "" !in ids
    ensures forall e :: e in PartEntries(job, ids, ResticSnapshot) ==> Pure(s.repo, e)
  {
    PartEntriesAre(job, ids, ResticSnapshot);
    forall e | e in PartEntries(job, ids, ResticSnapshot) ensures Pure(s.repo, e) {
      var k :| 0 <= k < |ids| && e == PartEntry(job, k, ids[k]) && job.parts[k].StoreOf() == ResticSnapshot;
      PartIsPure(s, job, ids, k);
    }
  }

  lemma PartIsPure(s: State, job: Job, ids: seq<SnapshotId>, k: nat)
    requires SplitPlan(job) && JobOk(s, job, ids) && k < |ids|
    ensures Pure(s.repo, PartEntry(job, k, ids[k]))
    ensures forall p :: p in s.repo[ids[k]].files ==> s.repo[ids[k]].files[p].kind == job.parts[k].kind
  {
    SplitConserves(job.tree, job.prefix, job.entries, job.target, job.parts);
  }

  lemma DisagreementAfterReplace(s: State, pid: nat)
    requires ManifestOk(s) && HistoryOk(s) && ProcessesOk(s) && DisagreementExplained(s)
    requires CanReplace(s, pid)
    ensures DisagreementExplained(AfterReplace(s, pid))
  {
    forall store, x | IsSnapshotStore(store)
      ensures x in Flux(s.processes[pid]) ==> !Disagrees(AfterReplace(s, pid), store, x)
      ensures x !in Flux(s.processes[pid]) && Disagrees(AfterReplace(s, pid), store, x) ==> Disagrees(s, store, x)
    {
      ReplaceSettles(s, pid, store, x);
    }
    OneIdChanges(s, AfterReplace(s, pid), pid, Flux(s.processes[pid]));
  }

  lemma ReplaceSettles(s: State, pid: nat, store: Store, x: SnapshotId)
    requires ManifestOk(s) && HistoryOk(s) && ProcessesOk(s) && CanReplace(s, pid) && IsSnapshotStore(store)
    ensures x in Flux(s.processes[pid]) ==> !Disagrees(AfterReplace(s, pid), store, x)
    ensures x !in Flux(s.processes[pid]) && Disagrees(AfterReplace(s, pid), store, x) ==> Disagrees(s, store, x)
  {
    var SplitForgotten(job, ids) := s.processes[pid];
    SplitIsUnlisted(s, pid, store);
    SettledAfterReplace(s.repo, s.manifest, job, ids, Flux(s.processes[pid]), store, x);
  }

  /** Before the manifest is replaced it lists none of the replacements, whose snapshots exist,
      and the mixed copy at most in its own store. */
  ghost predicate SplitUnlisted(repo: Repository, m: Manifest, job: Job, ids: seq<SnapshotId>, store: Store) {
    && IsSnapshotStore(store) && |ids| == |job.parts| && "" !in ids && SnapshotEntry(job.mixed)
    && SnapshotEntries(Copies(m, store)) && UniqueReferences(Copies(m, store))
    && (store != ResticSnapshot ==> job.mixed.snapshotId !in ListedIds(Copies(m, store)))
    && job.mixed.snapshotId !in repo && job.mixed.snapshotId !in ids
    && (forall j, k :: 0 <= j < k < |ids| ==> ids[j] != ids[k])
    && (forall k :: 0 <= k < |ids| ==>
          ids[k] in repo && repo[ids[k]].tag == job.parts[k].Tag() && ids[k] !in ListedIds(Copies(m, store)))
  }

  lemma SplitIsUnlisted(s: State, pid: nat, store: Store)
    requires ManifestOk(s) && HistoryOk(s) && ProcessesOk(s) && CanReplace(s, pid) && IsSnapshotStore(store)
    ensures SplitUnlisted(s.repo, s.manifest, s.processes[pid].job, s.processes[pid].ids, store)
  {
    assert ProcessOk(s, s.processes[pid]);
    FreshInRepo(s, s.processes[pid]);
    assert forall id :: id in s.processes[pid].ids ==> id in Fresh(s.processes[pid]);
  }

  /** Provider and manifest agree again on the snapshots of the split, and differ on the others
      as before. */
  lemma SettledAfterReplace(repo: Repository, m: Manifest, job: Job, ids: seq<SnapshotId>, flux: set<SnapshotId>,
                            store: Store, x: SnapshotId)
    requires SplitUnlisted(repo, m, job, ids, store) && flux == IdSet(ids) + {job.mixed.snapshotId}
    ensures x in flux ==> !DisagreeOn(repo, ManifestAfterSplit(m, job, ids), store, x)
    ensures x !in flux ==>
              (DisagreeOn(repo, ManifestAfterSplit(m, job, ids), store, x) <==> DisagreeOn(repo, m, store, x))
  {
    ListedAfterReplace(m, job, ids, store);
    ListedSettles(repo, job, ids, store, ListedIds(Copies(m, store)),
                  ListedIds(Copies(ManifestAfterSplit(m, job, ids), store)), x);
  }

  lemma ListedSettles(repo: Repository, job: Job, ids: seq<SnapshotId>, store: Store, before: set<SnapshotId>,
                      after: set<SnapshotId>, x: SnapshotId)
    requires |ids| == |job.parts| && job.mixed.snapshotId !in repo && job.mixed.snapshotId !in ids
    requires forall j, k :: 0 <= j < k < |ids| ==> ids[j] != ids[k]
    requires forall k :: 0 <= k < |ids| ==>
               ids[k] in repo && repo[ids[k]].tag == job.parts[k].Tag() && ids[k] !in before
    requires forall id :: id in after <==>
               || (id in before && id != job.mixed.snapshotId)
               || exists k :: 0 <= k < |ids| && ids[k] == id && job.parts[k].StoreOf() == store
    ensures x in ids || x == job.mixed.snapshotId ==> (x in after <==> x in TaggedIds(repo, store))
    ensures x !in ids && x != job.mixed.snapshotId ==> (x in after <==> x in before)
  {
    if k :| 0 <= k < |ids| && ids[k] == x {
      PartTagControlled(job.parts[k], store);
    }
  }

  lemma PartTagControlled(part: Part, store: Store)
    ensures Controls(store, part.Tag()) <==> store == part.StoreOf()
  {
    TagsSeparate(store);
  }

  // ---- The remaining steps

  ghost function WithOperation(s: State, pid: nat, p: Process): (s': State) {
    s.(processes := s.processes[pid := p])
  }

  /** The operation has created and forgotten nothing yet. */
  ghost predicate Idle(p: Process) {
    p.Requested? || (p.Splitting? && p.ids == [])
  }

  /** An operation is requested or begins to split. */
  lemma OperationBegins(s: State, pid: nat, p: Process)
    requires Invariant(s) && Idle(p) && Planned(p) && ProcessOk(s, p)
    requires pid in s.processes ==> Idle(s.processes[pid])
    ensures Invariant(WithOperation(s, pid, p))
  {
    var s' := WithOperation(s, pid, p);
    ManifestUntouched(s, s');
    OperationIsOk(s, pid, p);
    OnePlanned(s.processes, pid, p);
    OperationAgrees(s, pid, p);
    OperationMovesNothing(s, pid, p);
  }

  lemma OperationIsOk(s: State, pid: nat, p: Process)
    requires HistoryOk(s) && ProcessesOk(s) && Idle(p) && ProcessOk(s, p)
    ensures ProcessesOk(WithOperation(s, pid, p))
  {
    AllFreshInRepo(s);
    OthersStable(s, WithOperation(s, pid, p), pid);
  }

  lemma OperationAgrees(s: State, pid: nat, p: Process)
    requires DisagreementExplained(s) && Idle(p) && (pid in s.processes ==> Idle(s.processes[pid]))
    ensures DisagreementExplained(WithOperation(s, pid, p))
  {
    OneIdChanges(s, WithOperation(s, pid, p), pid, {});
  }

  lemma OperationMovesNothing(s: State, pid: nat, p: Process)
    requires NothingLost(s) && PlacesOk(s) && Idle(p)
    ensures NothingLost(WithOperation(s, pid, p)) && PlacesOk(WithOperation(s, pid, p))
  {
    PlacesStay(s, WithOperation(s, pid, p));
  }

  lemma RequestCleanupKeeps(s: State, a: Action)
    requires Invariant(s) && a.RequestCleanup? && Enabled(s, a)
    ensures Invariant(Apply(s, a))
  {
    ListedOnce(s, ResticSnapshot, a.copy);
    OperationBegins(s, a.pid, Requested(a.copy, a.target));
  }

  lemma BeginSplitKeeps(s: State, pid: nat, job: Job)
    requires Invariant(s) && pid in s.processes && s.processes[pid].Requested? && SplitPlan(job)
    requires job.mixed == s.processes[pid].copy && job.mixed.snapshotId in s.repo
    requires job.tree == s.repo[job.mixed.snapshotId].files
    ensures Invariant(AfterBegin(s, pid, job))
  {
    assert ProcessOk(s, s.processes[pid]);
    OperationBegins(s, pid, Splitting(job, []));
  }

  lemma StopKeeps(s: State, pid: nat)
    requires Invariant(s) && pid in s.processes
    ensures Invariant(AfterStop(s, pid))
  {
    ProcessesAfterStop(s, pid);
    DisagreementAfterStop(s, pid);
    PlansAfterStop(s, pid);
    PlacesAfterStop(s, pid);
  }

  lemma DisagreementAfterStop(s: State, pid: nat)
    requires DisagreementExplained(s) && pid in s.processes
    ensures DisagreementExplained(AfterStop(s, pid))
  {
    OneIdChanges(s, AfterStop(s, pid), pid, {});
  }

  lemma PlacesAfterStop(s: State, pid: nat)
    requires NothingLost(s) && PlacesOk(s) && pid in s.processes
    ensures NothingLost(AfterStop(s, pid)) && PlacesOk(AfterStop(s, pid))
  {
    PlacesStay(s, AfterStop(s, pid));
  }

  lemma PlansAfterStop(s: State, pid: nat)
    requires PlansOk(s) && pid in s.processes
    ensures PlansOk(AfterStop(s, pid))
  {
    var s' := AfterStop(s, pid);
    assert forall pid :: pid in s'.processes ==> s'.processes[pid] == s.processes[pid];
  }

  lemma ProcessesAfterStop(s: State, pid: nat)
    requires HistoryOk(s) && ProcessesOk(s) && pid in s.processes
    ensures HistoryOk(AfterStop(s, pid)) && ProcessesOk(AfterStop(s, pid))
  {
    var s' := AfterStop(s, pid);
    var p := s.processes[pid];
    assert ProcessOk(s, p);
    FreshInRepo(s, p);
    RetiredProcess(s, s', pid, Fresh(p));
    forall id | id in Fresh(p) ensures exists store :: IsSnapshotStore(store) && Controls(store, s.repo[id].tag) {
      FreshIsControlled(s, p, id);
    }
  }

  lemma FreshIsControlled(s: State, p: Process, id: SnapshotId)
    requires ProcessOk(s, p) && id in Fresh(p)
    ensures id in s.repo
    ensures exists store :: IsSnapshotStore(store) && Controls(store, s.repo[id].tag)
  {
    match p
    case BackedUp(_) =>
      TagsSeparate(ResticSnapshot);
    case Splitting(job, ids) =>
      var k :| 0 <= k < |ids| && ids[k] == id;
      PartTagControlled(job.parts[k], job.parts[k].StoreOf());
    case SplitForgotten(job, ids) =>
      var k :| 0 <= k < |ids| && ids[k] == id;
      PartTagControlled(job.parts[k], job.parts[k].StoreOf());
  }

  /** Edits of other stores touch no snapshot store. */
  lemma ElsewhereKeeps(s: State, a: Action)
    requires Invariant(s) && (a.AppendElsewhere? || a.RemoveElsewhere?) && Enabled(s, a)
    ensures Invariant(Apply(s, a))
  {
    ManifestAfterElsewhere(s, a);
    OthersAfterElsewhere(s, a);
    PlacesStay(s, Apply(s, a));
  }

  lemma ManifestAfterElsewhere(s: State, a: Action)
    requires ManifestOk(s) && DisagreementExplained(s)
    requires (a.AppendElsewhere? || a.RemoveElsewhere?) && Enabled(s, a)
    ensures ManifestOk(Apply(s, a)) && DisagreementExplained(Apply(s, a))
  {
    var s' := Apply(s, a);
    if a.AppendElsewhere? {
      AppendedEntries(Copies(s.manifest, a.store), a.additions);
    } else {
      WithoutEntries(Copies(s.manifest, a.store), a.reference);
    }
    assert forall store :: store != a.store ==> Copies(s'.manifest, store) == Copies(s.manifest, store);
    ExplainedElsewhere(s, s', a.store);
  }

  lemma ExplainedElsewhere(s: State, s': State, other: Store)
    requires DisagreementExplained(s) && !IsSnapshotStore(other)
    requires s'.repo == s.repo && s'.processes == s.processes && s'.residue == s.residue
    requires forall store :: store != other ==> Copies(s'.manifest, store) == Copies(s.manifest, store)
    ensures DisagreementExplained(s')
  {
    forall store, x | IsSnapshotStore(store) && Disagrees(s', store, x) ensures Explained(s', x) {
      assert Disagrees(s, store, x);
    }
  }

  lemma OthersAfterElsewhere(s: State, a: Action)
    requires HistoryOk(s) && ProcessesOk(s) && (a.AppendElsewhere? || a.RemoveElsewhere?) && Enabled(s, a)
    ensures HistoryOk(Apply(s, a)) && ProcessesOk(Apply(s, a))
  {
    var s' := Apply(s, a);
    AllFreshInRepo(s);
    forall pid | pid in s'.processes ensures ProcessOk(s', s'.processes[pid]) {
      ProcessStable(s, s', s.processes[pid]);
    }
  }

  // ---- Whole runs

  lemma StepKeeps(s: State, a: Action)
    requires Invariant(s) && Enabled(s, a)
    ensures Invariant(Apply(s, a))
  {
    match a
    case BackUpCore(pid, id, files) => BackUpCoreKeeps(s, pid, id, files);
    case MergeCore(pid) => MergeCoreKeeps(s, pid);
    case RequestCleanup(_, _, _) => RequestCleanupKeeps(s, a);
    case BeginSplit(pid, prefix, entries, parts) =>
      BeginSplitKeeps(s, pid, JobOf(s, s.processes[pid], prefix, entries, parts));
    case BackUpPart(pid, id) => BackUpPartKeeps(s, pid, id);
    case ForgetMixed(pid) => ForgetMixedKeeps(s, pid);
    case ReplaceManifest(pid) => ReplaceManifestKeeps(s, pid);
    case ForgetExclusive(pid) => ForgetExclusiveKeeps(s, pid, s.processes[pid].copy);
    case RemoveEntry(pid) => RemoveEntryKeeps(s, pid);
    case Stop(pid) => StopKeeps(s, pid);
    case AppendElsewhere(_, _) => ElsewhereKeeps(s, a);
    case RemoveElsewhere(_, _) => ElsewhereKeeps(s, a);
  }

  /** A host at rest: no operation in flight, provider and manifest in agreement, copies that
      are marked exclusive truly so; every file of the repository is to be kept. */
  ghost predicate Initial(s: State) {
    && s.processes == map[] && s.residue == {} && s.orphans == {} && s.removed == {} && s.made == map[]
    && s.cleaned == {}
    && ManifestOk(s)
    && s.repo.Keys <= s.used && s.owner.Keys <= s.used && "" !in s.used
    && (forall store: Store :: IsSnapshotStore(store) ==> Agree(s.repo, s.manifest, store))
    && (forall o :: o in s.archive <==> o.snapshot in s.repo && o.path in s.repo[o.snapshot].files)
    && (forall o :: o in s.archive ==> s.archive[o] == s.repo[o.snapshot].files[o.path])
    && s.places == map o | o in s.archive :: o
  }

  /** `states` is a run: each state follows from the one before by an enabled action. */
  ghost predicate IsRun(states: seq<State>, actions: seq<Action>) {
    |states| == |actions| + 1 && Initial(states[0]) && Follow(states, actions, IsStep)
  }

  ghost predicate IsStep(s: State, a: Action, s': State) {
    Enabled(s, a) && s' == Apply(s, a)
  }

  /** Each state follows from the one before. */
  ghost predicate Follow(states: seq<State>, actions: seq<Action>, step: (State, Action, State) -> bool) {
    forall i :: 0 <= i < |actions| && i + 1 < |states| ==> step(states[i], actions[i], states[i + 1])
  }

  lemma RunStep(states: seq<State>, actions: seq<Action>, i: nat)
    requires IsRun(states, actions) && i < |actions|
    ensures IsStep(states[i], actions[i], states[i + 1])
  {
  }

  lemma RunKeeps(states: seq<State>, actions: seq<Action>, i: nat)
    requires IsRun(states, actions) && i < |states|
    ensures Invariant(states[i])
  {
    var ok := seq(i + 1, k requires 0 <= k <= i => Invariant(states[k]));
    InitialOk(states[0]);
    forall k | 0 <= k < i ensures ok[k] ==> ok[k + 1] {
      if Invariant(states[k]) { NextKeeps(states, actions, k); }
    }
    Throughout(ok, i);
  }

  lemma InitialOk(s: State)
    requires Initial(s)
    ensures Invariant(s)
  {
  }

  lemma {:induction false} Throughout(ok: seq<bool>, i: nat)
    requires i < |ok| && ok[0] && forall k :: 0 <= k < |ok| - 1 ==> ok[k] ==> ok[k + 1]
    ensures ok[i]
  {
    if i > 0 { Throughout(ok, i - 1); }
  }

  lemma NextKeeps(states: seq<State>, actions: seq<Action>, i: nat)
    requires IsRun(states, actions) && i < |actions| && Invariant(states[i])
    ensures Invariant(states[i + 1])
  {
    RunStep(states, actions, i);
    StepKeeps(states[i], actions[i]);
  }

  /** Crash safety: at every point of every run, whatever failed or crashed, every file ever
      backed up has a place of its own in the repository, with the same bytes and at its old
      path or the rest of it below the split's prefix, unless a snapshot of its lineage has
      been forgotten.  Files with equal bytes keep different places. */
  lemma NothingRetainedIsLost(states: seq<State>, actions: seq<Action>, i: nat)
    requires IsRun(states, actions) && i < |states|
    ensures exists places: map<Place, Place> ::
              OneToOne(places) && Kept(states[i].repo, states[i].archive, states[i].removed, places)
  {
    RunKeeps(states, actions, i);
    assert NothingLost(states[i]) && OneToOne(states[i].places);
  }

  /** The archive only grows: it holds every file that any backup of the run has stored. */
  lemma ArchiveOnlyGrows(states: seq<State>, actions: seq<Action>, i: nat, j: nat, o: Place)
    requires IsRun(states, actions) && i <= j < |states| && o in states[i].archive
    ensures o in states[j].archive && states[j].archive[o] == states[i].archive[o]
  {
    var archives := seq(|states|, k requires 0 <= k < |states| => states[k].archive);
    forall k | 0 <= k < |archives| - 1
      ensures o in archives[k] ==> o in archives[k + 1] && archives[k + 1][o] == archives[k][o]
    {
      RunKeeps(states, actions, k);
      RunStep(states, actions, k);
      if o in states[k].archive { ArchiveStep(states[k], actions[k], o); }
    }
    Persists(archives, i, j, o);
  }

  lemma {:induction false} Persists(archives: seq<map<Place, File>>, i: nat, j: nat, o: Place)
    requires i <= j < |archives| && o in archives[i]
    requires forall k :: 0 <= k < |archives| - 1 ==> o in archives[k] ==>
               o in archives[k + 1] && archives[k + 1][o] == archives[k][o]
    ensures o in archives[j] && archives[j][o] == archives[i][o]
    decreases j - i
  {
    if i < j { Persists(archives, i, j - 1, o); }
  }

  lemma ArchiveStep(s: State, a: Action, o: Place)
    requires PlacesOk(s) && Enabled(s, a) && o in s.archive
    ensures o in Apply(s, a).archive && Apply(s, a).archive[o] == s.archive[o]
  {
  }

  /** References stay unique in every store. */
  lemma ReferencesStayUnique(states: seq<State>, actions: seq<Action>, i: nat, store: Store)
    requires IsRun(states, actions) && i < |states|
    ensures UniqueReferences(Copies(states[i].manifest, store))
  {
    RunKeeps(states, actions, i);
  }

  /** Once every operation has run to completion, provider and manifest agree again. */
  lemma CompletedOperationsAgree(states: seq<State>, actions: seq<Action>, i: nat, store: Store)
    requires IsRun(states, actions) && i < |states| && IsSnapshotStore(store)
    requires states[i].processes == map[] && states[i].residue == {}
    ensures Agree(states[i].repo, states[i].manifest, store)
  {
    RunKeeps(states, actions, i);
    var s := states[i];
    assert forall id :: !Explained(s, id);
    forall id ensures id in TaggedIds(s.repo, store) <==> id in ListedIds(Copies(s.manifest, store)) {
      assert !Disagrees(s, store, id);
    }
  }

  /** An operation can stop in two ways only: without having changed a controlled snapshot,
      or leaving an id on which provider and manifest disagree, which makes the inventory
      incomplete.  The one exception is an id that another operation has meanwhile removed from
      the manifest as well. */
  lemma InterruptionShows(s: State, pid: nat, id: SnapshotId)
    requires Invariant(s) && pid in s.processes && id in Flux(s.processes[pid])
    ensures || (exists store :: IsSnapshotStore(store) && Disagrees(Apply(s, Stop(pid)), store, id) &&
                                ReportedIncomplete(Apply(s, Stop(pid)), store))
            || (id !in s.repo && forall store :: IsSnapshotStore(store) ==> id !in ListedIds(Copies(s.manifest, store)))
  {
    var s' := Apply(s, Stop(pid));
    var p := s.processes[pid];
    assert ProcessOk(s, p);
    if id in Fresh(p) {
      FreshIsControlled(s, p, id);
      var store :| IsSnapshotStore(store) && Controls(store, s.repo[id].tag);
      assert Disagrees(s', store, id);
      DisagreementIsIncomplete(s', store, id);
    } else {
      assert id !in s.repo;
      if store :| IsSnapshotStore(store) && id in ListedIds(Copies(s.manifest, store)) {
        assert Disagrees(s', store, id);
        DisagreementIsIncomplete(s', store, id);
      }
    }
  }

  lemma OrphansOnlyGrow(states: seq<State>, actions: seq<Action>, i: nat, j: nat)
    requires IsRun(states, actions) && i <= j < |states|
    ensures states[i].orphans <= states[j].orphans
  {
    var orphans := seq(|states|, k requires 0 <= k < |states| => states[k].orphans);
    forall k | 0 <= k < |orphans| - 1 ensures orphans[k] <= orphans[k + 1] {
      RunStep(states, actions, k);
      OrphansStep(states[k], actions[k]);
    }
    Grows(orphans, i, j);
  }

  lemma {:induction false} Grows(sets: seq<set<SnapshotId>>, i: nat, j: nat)
    requires i <= j < |sets| && forall k :: 0 <= k < |sets| - 1 ==> sets[k] <= sets[k + 1]
    ensures sets[i] <= sets[j]
    decreases j - i
  {
    if i < j { Grows(sets, i, j - 1); }
  }

  lemma OrphansStep(s: State, a: Action)
    requires Enabled(s, a)
    ensures s.orphans <= Apply(s, a).orphans
  {
  }

  /** What the inventory reports is decided by agreement: over any listing of the repository
      it is complete only if provider and manifest agree. */
  lemma DisagreementIsReported(repo: Repository, m: Manifest, provider: seq<I.Listing>, store: Store)
    requires I.Lists(provider, repo)
    ensures Agree(repo, m, store) <==> I.ProviderIds(provider, store) == ListedIds(Copies(m, store))
  {
    I.ProviderIdsAreTagged(repo, provider, store);
  }

  /** The inventory of the store is not complete, for any listing and any requested scope. */
  ghost predicate ReportedIncomplete(s: State, store: Store) {
    forall provider, scope, layoutOk :: I.Lists(provider, s.repo) ==>
      !I.IsComplete(provider, Copies(s.manifest, store), store, scope, layoutOk)
  }

  lemma DisagreementIsIncomplete(s: State, store: Store, id: SnapshotId)
    requires Disagrees(s, store, id)
    ensures ReportedIncomplete(s, store)
  {
    forall provider, scope, layoutOk | I.Lists(provider, s.repo)
      ensures !I.IsComplete(provider, Copies(s.manifest, store), store, scope, layoutOk)
    {
      DisagreementIsReported(s.repo, s.manifest, provider, store);
    }
  }

  /** An interrupted operation that had created a snapshot is reported as an incomplete
      inventory in every later state, whatever runs after it and whatever scope is asked for. */
  lemma OrphanStaysVisible(states: seq<State>, actions: seq<Action>, i: nat, j: nat, id: SnapshotId)
    requires IsRun(states, actions) && i <= j < |states| && id in states[i].orphans
    ensures exists store :: IsSnapshotStore(store) && ReportedIncomplete(states[j], store)
  {
    OrphansOnlyGrow(states, actions, i, j);
    RunKeeps(states, actions, j);
    var s := states[j];
    var store :| IsSnapshotStore(store) && Controls(store, s.repo[id].tag);
    assert Disagrees(s, store, id);
    DisagreementIsIncomplete(s, store, id);
  }

  /** When a split is about to be recorded the mixed snapshot is gone, no replacement holds
      the removed lineage, and each replacement holds one class of content. */
  lemma SplitRemovesLineage(states: seq<State>, actions: seq<Action>, i: nat, pid: nat)
    requires IsRun(states, actions) && i < |states|
    requires pid in states[i].processes && states[i].processes[pid].SplitForgotten?
    ensures var s := states[i];
            var SplitForgotten(job, ids) := s.processes[pid];
            && job.mixed.snapshotId !in s.repo
            && |ids| == |job.parts|
            && (forall k :: 0 <= k < |ids| ==> ids[k] in s.repo)
            && (forall k, p :: 0 <= k < |ids| && p in s.repo[ids[k]].files ==>
                  s.repo[ids[k]].files[p].kind == job.parts[k].kind != Message(job.target))
            && (forall q :: q in job.tree && job.tree[q].kind != Message(job.target) ==>
                  exists k, p :: InPart(job, k, p, q) && HeldAt(s.repo, Place(ids[k], p), job.tree[q]))
  {
    RunKeeps(states, actions, i);
    var s := states[i];
    var SplitForgotten(job, ids) := s.processes[pid];
    assert ProcessOk(s, s.processes[pid]);
    forall k | 0 <= k < |ids|
      ensures job.parts[k].kind != Message(job.target)
      ensures forall p :: p in s.repo[ids[k]].files ==> s.repo[ids[k]].files[p].kind == job.parts[k].kind
    {
      PartIsPure(s, job, ids, k);
    }
    forall q | q in job.tree && job.tree[q].kind != Message(job.target)
      ensures exists k, p :: InPart(job, k, p, q) && HeldAt(s.repo, Place(ids[k], p), job.tree[q])
    {
      PartsHoldRetained(s, job, ids, q);
      var k, p :| InPart(job, k, p, q);
      assert HeldAt(s.repo, Place(ids[k], p), job.tree[q]);
    }
  }
}
