/**
 How replacements are listed: in every state of every run the manifest files each replacement
 under what it holds, so that a completed split leaves every retained lineage inventoried and
 removable on its own.
 */
module RetentionFiling {
  import opened ControlledCopies
  import opened SplitMigration
  import opened RetentionProtocol
  import opened RetentionSafety
  import opened RetentionRemoval
  import I = ResticInventory

  // ---- What a listed replacement must be

  /** All files of the snapshot are of one class, and there are some. */
  ghost predicate HoldsOnly(files: map<Path, File>, kind: ContentClass) {
    files != map[] && forall p :: p in files ==> files[p].kind == kind
  }

  /** The entry says what the snapshot holds: in the snapshot store a message copy, exclusive to the
      lineage of all its files; in a store of protected material that material, under the lineage
      that the split removed. */
  ghost predicate FilesRight(store: Store, e: Entry, files: map<Path, File>, removed: Lineage) {
    match store
    case ResticSnapshot =>
      e.classes == ["message"] && e.exclusive && !e.aggregateCoverage && HoldsOnly(files, Message(e.lineage))
    case SessionCredentials =>
      HoldsOnly(files, SessionCredential) && Protected(e, removed)
    case AccountKeys => HoldsOnly(files, AccountKey) && Protected(e, removed)
    case _ => true
  }

  ghost predicate Protected(e: Entry, removed: Lineage) {
    e.lineage == removed && e.classes == [] && !e.exclusive && !e.aggregateCoverage
  }

  /** Every listed replacement that still exists is listed for what it holds. */
  ghost predicate ListedRight(s: State) {
    forall store, e :: IsSnapshotStore(store) && e in Copies(s.manifest, store) && e.snapshotId in s.made &&
                       e.snapshotId in s.repo ==>
                         FilesRight(store, e, s.repo[e.snapshotId].files, s.made[e.snapshotId].1)
  }

  /** The replacements of a split are recorded as made of its snapshot without its lineage. */
  ghost predicate WorkRecorded(s: State) {
    forall pid :: pid in s.processes ==> Recorded(s.made, s.processes[pid])
  }

  ghost predicate Recorded(made: map<SnapshotId, (SnapshotId, Lineage)>, p: Process) {
    p.Splitting? || p.SplitForgotten? ==>
      forall id :: id in p.ids ==> id in made && made[id] == (p.job.mixed.snapshotId, p.job.target)
  }

  ghost predicate FilingOk(s: State) {
    ListedRight(s) && WorkRecorded(s)
  }

  // ---- Steps

  /** Steps that list nothing and make nothing. */
  lemma NothingListed(s: State, s': State)
    requires HistoryOk(s) && ManifestOk(s) && FilingOk(s) && RepoEvolves(s, s') && s'.made == s.made
    requires forall store, e :: IsSnapshotStore(store) && e in Copies(s'.manifest, store) ==>
               e in Copies(s.manifest, store)
    requires forall pid :: pid in s'.processes ==> Recorded(s.made, s'.processes[pid])
    ensures FilingOk(s')
  {
    forall store, e | IsSnapshotStore(store) && e in Copies(s'.manifest, store) && e.snapshotId in s'.made &&
                      e.snapshotId in s'.repo
      ensures FilesRight(store, e, s'.repo[e.snapshotId].files, s'.made[e.snapshotId].1)
    {
      ListedOnce(s, store, e);
    }
  }

  lemma FilingAfterPart(s: State, pid: nat, id: SnapshotId)
    requires HistoryOk(s) && ManifestOk(s) && FilingOk(s) && CanTakePart(s, pid, id)
    requires forall x :: x in s.made ==> x in s.used
    ensures FilingOk(AfterPart(s, pid, id))
  {
    var s', p := AfterPart(s, pid, id), s.processes[pid];
    assert Recorded(s.made, p);
    forall store, e | IsSnapshotStore(store) && e in Copies(s'.manifest, store) && e.snapshotId in s'.made &&
                      e.snapshotId in s'.repo
      ensures FilesRight(store, e, s'.repo[e.snapshotId].files, s'.made[e.snapshotId].1)
    {
      ListedOnce(s, store, e);
    }
    forall q | q in s'.processes ensures Recorded(s'.made, s'.processes[q]) {
      if q != pid { assert Recorded(s.made, s.processes[q]); }
    }
  }

  lemma FilingAfterMerge(s: State, filed: map<SnapshotId, Entry>, pid: nat)
    requires ManifestOk(s) && FilingOk(s) && Filed(s, filed) && CanMerge(s, pid)
    ensures FilingOk(AfterMerge(s, pid))
  {
    var s', id := AfterMerge(s, pid), s.processes[pid].id;
    assert ProcessFiled(filed, s.made.Keys, s.processes[pid]);
    AppendedEntries(Copies(s.manifest, ResticSnapshot), [CoreEntry(id)]);
    forall store, e | IsSnapshotStore(store) && e in Copies(s'.manifest, store) && e.snapshotId in s.made
      ensures e in Copies(s.manifest, store)
    {
    }
  }

  /** What a split writes for its replacements. */
  lemma PartFiledRight(s: State, job: Job, ids: seq<SnapshotId>, k: nat)
    requires SplitPlan(job) && JobOk(s, job, ids) && k < |ids|
    ensures FilesRight(job.parts[k].StoreOf(), PartEntry(job, k, ids[k]), s.repo[ids[k]].files, job.target)
  {
    PartHoldsOnly(job, k);
    PartEntryRight(job, k, ids[k]);
  }

  lemma PartHoldsOnly(job: Job, k: nat)
    requires SplitPlan(job) && k < |job.parts|
    ensures HoldsOnly(job.parts[k].files, job.parts[k].kind)
  {
    SplitConserves(job.tree, job.prefix, job.entries, job.target, job.parts);
    PartNotEmpty(job, k);
  }

  lemma PartEntryRight(job: Job, k: nat, id: SnapshotId)
    requires k < |job.parts| && HoldsOnly(job.parts[k].files, job.parts[k].kind)
    ensures FilesRight(job.parts[k].StoreOf(), PartEntry(job, k, id), job.parts[k].files, job.target)
  {
  }

  lemma PartNotEmpty(job: Job, k: nat)
    requires SplitPlan(job) && k < |job.parts|
    ensures job.parts[k].files != map[]
  {
    assert HasKind(job.entries, job.parts[k].kind);
    var i :| 0 <= i < |job.entries| && job.entries[i].kind == job.parts[k].kind;
    assert job.entries[i].path in job.parts[k].files;
  }

  lemma FilingAfterReplace(s: State, pid: nat)
    requires Invariant(s) && FilingOk(s) && CanReplace(s, pid)
    ensures FilingOk(AfterReplace(s, pid))
  {
    var s', p := AfterReplace(s, pid), s.processes[pid];
    assert ProcessOk(s, p) && Planned(p) && Recorded(s.made, p);
    forall store, e | IsSnapshotStore(store) && e in Copies(s'.manifest, store) && e.snapshotId in s.made &&
                      e.snapshotId in s.repo
      ensures FilesRight(store, e, s.repo[e.snapshotId].files, s.made[e.snapshotId].1)
    {
      ReplacedEntry(s.manifest, p.job, p.ids, store, e);
      if e !in Copies(s.manifest, store) { NewEntryRight(s, p, store, e); }
    }
  }

  lemma NewEntryRight(s: State, p: Process, store: Store, e: Entry)
    requires HistoryOk(s) && p.SplitForgotten? && ProcessOk(s, p) && Planned(p) && Recorded(s.made, p)
    requires e in PartEntries(p.job, p.ids, store)
    ensures e.snapshotId in s.made && e.snapshotId in s.repo
    ensures FilesRight(store, e, s.repo[e.snapshotId].files, s.made[e.snapshotId].1)
  {
    FreshInRepo(s, p);
    var k := EntryIsOfPart(p.job, p.ids, store, e);
    PartFiledRight(s, p.job, p.ids, k);
    assert p.ids[k] in p.ids;
  }

  lemma EntryIsOfPart(job: Job, ids: seq<SnapshotId>, store: Store, e: Entry) returns (k: nat)
    requires |ids| <= |job.parts| && "" !in ids && e in PartEntries(job, ids, store)
    ensures k < |ids| && e == PartEntry(job, k, ids[k]) && job.parts[k].StoreOf() == store && e.snapshotId == ids[k]
  {
    PartEntriesAre(job, ids, store);
    var j :| 0 <= j < |ids| && e == PartEntry(job, j, ids[j]) && job.parts[j].StoreOf() == store;
    k := j;
  }

  /** Where the entries of a store come from after a split. */
  lemma ReplacedEntry(m: Manifest, job: Job, ids: seq<SnapshotId>, store: Store, e: Entry)
    requires |ids| <= |job.parts| && IsSnapshotStore(store) && e in Copies(ManifestAfterSplit(m, job, ids), store)
    ensures e in Copies(m, store) || e in PartEntries(job, ids, store)
  {
    var base := if store == ResticSnapshot then Without(Copies(m, store), job.mixed.reference) else Copies(m, store);
    assert Copies(ManifestAfterSplit(m, job, ids), store) == AppendNew(base, PartEntries(job, ids, store));
    WithoutEntries(Copies(m, store), job.mixed.reference);
    AppendedEntries(base, PartEntries(job, ids, store));
  }

  lemma FilingStep(s: State, a: Action, filed: map<SnapshotId, Entry>)
    requires Invariant(s) && MadeOk(s) && Filed(s, filed) && FilingOk(s) && Enabled(s, a)
    ensures FilingOk(Apply(s, a))
  {
    if a.BackUpPart? {
      FilingAfterPart(s, a.pid, a.id);
    } else if a.MergeCore? {
      FilingAfterMerge(s, filed, a.pid);
    } else if a.ReplaceManifest? {
      FilingAfterReplace(s, a.pid);
    } else {
      NothingMade(s, a);
      OthersList(s, a);
      OthersRecorded(s, a);
      NothingListed(s, Apply(s, a));
    }
  }

  lemma OthersList(s: State, a: Action)
    requires Enabled(s, a) && !a.BackUpPart? && !a.MergeCore? && !a.ReplaceManifest?
    ensures forall store, e :: IsSnapshotStore(store) && e in Copies(Apply(s, a).manifest, store) ==>
              e in Copies(s.manifest, store)
  {
    if a.RemoveEntry? { WithoutEntries(Copies(s.manifest, ResticSnapshot), s.processes[a.pid].copy.reference); }
  }

  lemma OthersRecorded(s: State, a: Action)
    requires WorkRecorded(s) && Enabled(s, a) && !a.BackUpPart? && !a.MergeCore? && !a.ReplaceManifest?
    ensures forall pid :: pid in Apply(s, a).processes ==> Recorded(s.made, Apply(s, a).processes[pid])
  {
    if a.ForgetMixed? { assert Recorded(s.made, s.processes[a.pid]); }
  }

  lemma {:induction false} FilingInRuns(states: seq<State>, actions: seq<Action>, i: nat)
    requires IsRun(states, actions) && i < |states|
    ensures FilingOk(states[i])
  {
    if i > 0 {
      FilingInRuns(states, actions, i - 1);
      FilingNext(states, actions, i - 1);
    }
  }

  lemma FilingNext(states: seq<State>, actions: seq<Action>, i: nat)
    requires IsRun(states, actions) && i < |actions| && FilingOk(states[i])
    ensures FilingOk(states[i + 1])
  {
    RunKeeps(states, actions, i);
    MadeInRuns(states, actions, i);
    RunStep(states, actions, i);
    var filed := FiledInRuns(states, actions, i);
    FilingStep(states[i], actions[i], filed);
  }

  // ---- What every run lists

  /** In every state of every run, every replacement that the manifest lists and that exists is
      listed for what it holds: a message replacement as an exclusive message copy of the lineage of
      all its files, a protected one in the store of its material under the removed lineage. */
  lemma ReplacementsListedRight(states: seq<State>, actions: seq<Action>, i: nat, store: Store, e: Entry)
    requires IsRun(states, actions) && i < |states| && IsSnapshotStore(store) && e in Copies(states[i].manifest, store)
    requires e.snapshotId in states[i].made && e.snapshotId in states[i].repo
    ensures FilesRight(store, e, states[i].repo[e.snapshotId].files, states[i].made[e.snapshotId].1)
  {
    FilingInRuns(states, actions, i);
  }

  /** An entry of the store lists the snapshot. */
  ghost predicate ListedAs(m: Manifest, store: Store, e: Entry, id: SnapshotId) {
    e in Copies(m, store) && e.snapshotId == id && e.reference == Reference(id)
  }

  /** The inventory of the lineage returns the copy, for any listing of the repository, unless the
      lineage poses as the core backup's. */
  ghost predicate Inventoried(repo: Repository, e: Entry) {
    forall provider, scope: I.Scope, layoutOk :: I.Lists(provider, repo) && scope.lineage == e.lineage ==>
      (I.Matches(ResticSnapshot, e, I.ProviderIds(provider, ResticSnapshot), scope, layoutOk) <==>
       e.lineage.resource != "communicator-core")
  }

  /** A cleanup of the lineage can choose the copy and then forget its snapshot. */
  ghost predicate Removable(s: State, e: Entry) {
    forall pid :: pid !in s.processes ==>
      && Enabled(s, RequestCleanup(pid, e, e.lineage))
      && Enabled(Apply(s, RequestCleanup(pid, e, e.lineage)), ForgetExclusive(pid))
  }

  /** A completed split: every message file of another lineage lies in a replacement that is listed
      under that lineage, that the lineage's inventory returns and that its cleanup can forget;
      every protected file lies in a replacement listed in the store of its material. */
  lemma SplitLeavesLineagesRemovable(states: seq<State>, actions: seq<Action>, i: nat, pid: nat, q: Path)
    requires IsRun(states, actions) && i < |actions| && actions[i] == ReplaceManifest(pid)
    requires Enabled(states[i], actions[i]) && q in states[i].processes[pid].job.tree
    requires states[i].processes[pid].job.tree[q].kind != Message(states[i].processes[pid].job.target)
    ensures LeftReachable(states[i + 1], states[i].processes[pid].job.tree[q], q)
  {
    var s, s', p := states[i], states[i + 1], states[i].processes[pid];
    RunKeeps(states, actions, i);
    RunKeeps(states, actions, i + 1);
    RunStep(states, actions, i);
    FilingInRuns(states, actions, i);
    FilingInRuns(states, actions, i + 1);
    var e, at := PartReachable(s, pid, q);
    FullPathTail(p.job.prefix, at);
  }

  /** The file lies in a listed snapshot, in the store of its class; if it is of a message, under its
      lineage, whose inventory returns the copy and whose cleanup can forget it. */
  ghost predicate Reachable(s: State, f: File, e: Entry, p: Path) {
    && ListedAs(s.manifest, StoreFor(f.kind), e, e.snapshotId)
    && HeldAt(s.repo, Place(e.snapshotId, p), f)
    && (f.kind.Message? ==> e.lineage == f.kind.lineage && Inventoried(s.repo, e) && Removable(s, e))
  }

  ghost predicate LeftReachable(s: State, f: File, q: Path) {
    exists e, p :: Reachable(s, f, e, p) && IsTail(p, q)
  }

  lemma PartReachable(s: State, pid: nat, q: Path) returns (e: Entry, at: Path)
    requires Invariant(s) && FilingOk(s) && CanReplace(s, pid)
    requires ManifestOk(AfterReplace(s, pid)) && FilingOk(AfterReplace(s, pid))
    requires q in s.processes[pid].job.tree
    requires s.processes[pid].job.tree[q].kind != Message(s.processes[pid].job.target)
    ensures FullPath(s.processes[pid].job.prefix, at) == q
    ensures Reachable(AfterReplace(s, pid), s.processes[pid].job.tree[q], e, at)
  {
    var p := s.processes[pid];
    var f := p.job.tree[q];
    assert ProcessOk(s, p) && Planned(p) && Recorded(s.made, p);
    var k;
    k, at := HeldByPart(s, p, q);
    e := EntryOfPart(s, pid, k, f.kind);
    assert p.ids[k] in p.ids;
    if f.kind.Message? {
      PartTagControlled(p.job.parts[k], ResticSnapshot);
      ListedForLineage(AfterReplace(s, pid), e, f, at);
    }
  }

  lemma ListedForLineage(s: State, e: Entry, f: File, at: Path)
    requires ManifestOk(s) && ListedRight(s) && e in Copies(s.manifest, ResticSnapshot) && e.snapshotId in s.made
    requires HeldAt(s.repo, Place(e.snapshotId, at), f) && Controls(ResticSnapshot, s.repo[e.snapshotId].tag)
    ensures f.kind == Message(e.lineage) && Inventoried(s.repo, e) && Removable(s, e)
  {
    assert FilesRight(ResticSnapshot, e, s.repo[e.snapshotId].files, s.made[e.snapshotId].1);
    CopyIsInventoried(s, e);
  }

  function StoreFor(kind: ContentClass): (store: Store) {
    match kind
    case Message(_) => ResticSnapshot
    case SessionCredential => SessionCredentials
    case AccountKey => AccountKeys
  }

  lemma HeldByPart(s: State, p: Process, q: Path) returns (k: nat, at: Path)
    requires p.SplitForgotten? && ProcessOk(s, p) && Planned(p) && q in p.job.tree
    requires p.job.tree[q].kind != Message(p.job.target)
    ensures k < |p.ids| && p.ids[k] in s.repo && HeldAt(s.repo, Place(p.ids[k], at), p.job.tree[q])
    ensures FullPath(p.job.prefix, at) == q && p.job.parts[k].StoreOf() == StoreFor(p.job.tree[q].kind)
  {
    k, at := RetainedPart(s, p.job, p.ids, q);
    PartHoldsOnly(p.job, k);
    assert s.repo[p.ids[k]].files == p.job.parts[k].files;
    StoreOfPart(p.job.parts[k], at, p.job.tree[q]);
  }

  lemma StoreOfPart(part: Part, at: Path, f: File)
    requires HoldsOnly(part.files, part.kind) && at in part.files && part.files[at] == f
    ensures part.StoreOf() == StoreFor(f.kind)
  {
  }

  lemma RetainedPart(s: State, job: Job, ids: seq<SnapshotId>, q: Path) returns (k: nat, at: Path)
    requires SplitPlan(job) && JobOk(s, job, ids) && |ids| == |job.parts|
    requires q in job.tree && job.tree[q].kind != Message(job.target)
    ensures k < |ids| && FullPath(job.prefix, at) == q && HeldAt(s.repo, Place(ids[k], at), job.tree[q])
  {
    PartsHoldRetained(s, job, ids, q);
    var j, x :| InPart(job, j, x, q) && HeldAt(s.repo, Place(ids[j], x), job.tree[q]);
    k, at := j, x;
  }

  /** The entry of a replacement after its split. */
  lemma EntryOfPart(s: State, pid: nat, k: nat, kind: ContentClass) returns (e: Entry)
    requires ManifestOk(s) && HistoryOk(s) && ProcessesOk(s) && CanReplace(s, pid) && k < |s.processes[pid].ids|
    requires s.processes[pid].job.parts[k].StoreOf() == StoreFor(kind)
    requires ManifestOk(AfterReplace(s, pid))
    ensures ListedAs(AfterReplace(s, pid).manifest, StoreFor(kind), e, s.processes[pid].ids[k])
  {
    var p, store := s.processes[pid], StoreFor(kind);
    assert ProcessOk(s, p);
    FreshInRepo(s, p);
    SplitIsUnlisted(s, pid, store);
    ListedAfterReplace(s.manifest, p.job, p.ids, store);
    e := ListedEntry(AfterReplace(s, pid), store, p.ids[k]);
  }

  lemma ListedEntry(s: State, store: Store, id: SnapshotId) returns (e: Entry)
    requires ManifestOk(s) && IsSnapshotStore(store) && id in ListedIds(Copies(s.manifest, store))
    ensures ListedAs(s.manifest, store, e, id)
  {
    var copies := Copies(s.manifest, store);
    var i :| 0 <= i < |copies| && copies[i].snapshotId != "" && copies[i].snapshotId == id;
    e := copies[i];
    ListedOnce(s, store, e);
  }

  lemma CopyIsInventoried(s: State, e: Entry)
    requires ManifestOk(s) && e in Copies(s.manifest, ResticSnapshot) && e.snapshotId in s.repo
    requires e.classes == ["message"] && e.exclusive && !e.aggregateCoverage
    requires Controls(ResticSnapshot, s.repo[e.snapshotId].tag)
    ensures Inventoried(s.repo, e) && Removable(s, e)
  {
    ListedOnce(s, ResticSnapshot, e);
    forall provider, scope: I.Scope, layoutOk | I.Lists(provider, s.repo) && scope.lineage == e.lineage
      ensures I.Matches(ResticSnapshot, e, I.ProviderIds(provider, ResticSnapshot), scope, layoutOk) <==>
              e.lineage.resource != "communicator-core"
    {
      I.ProviderIdsAreTagged(s.repo, provider, ResticSnapshot);
    }
  }

  // ---- Core backups

  /** A merged core backup is listed as an aggregate: the inventory of every scope that can be
      projected returns it if its layout is proved, reports missing coverage otherwise, and no
      cleanup forgets or splits it as a message copy. */
  lemma CoreIsAggregate(s: State, pid: nat) returns (e: Entry)
    requires Invariant(s) && CanMerge(s, pid)
    ensures ListedAs(AfterMerge(s, pid).manifest, ResticSnapshot, e, s.processes[pid].id)
    ensures e.classes == ["message", "session_credential", "account_key"] && !e.exclusive && AggregateOf(s.repo, e)
  {
    var id := s.processes[pid].id;
    e := CoreEntry(id);
    assert ProcessOk(s, s.processes[pid]) && id in Fresh(s.processes[pid]);
    TagsSeparate(ResticSnapshot);
    CoreIsListed(s, id);
    CoreIsJudged(s.repo, id);
  }

  ghost predicate AggregateOf(repo: Repository, e: Entry) {
    forall provider, scope: I.Scope, layoutOk :: I.Lists(provider, repo) && I.ProjectableScope(scope) ==>
      && (I.Matches(ResticSnapshot, e, I.ProviderIds(provider, ResticSnapshot), scope, layoutOk) <==>
          layoutOk(e.snapshotId))
      && (I.CoverageError(ResticSnapshot, e, I.ProviderIds(provider, ResticSnapshot), scope, layoutOk) <==>
          !layoutOk(e.snapshotId))
  }

  lemma CoreIsJudged(repo: Repository, id: SnapshotId)
    requires id in TaggedIds(repo, ResticSnapshot) && id != ""
    ensures AggregateOf(repo, CoreEntry(id))
  {
    var e := CoreEntry(id);
    forall provider, scope: I.Scope, layoutOk | I.Lists(provider, repo) && I.ProjectableScope(scope)
      ensures I.Matches(ResticSnapshot, e, I.ProviderIds(provider, ResticSnapshot), scope, layoutOk) <==> layoutOk(id)
      ensures I.CoverageError(ResticSnapshot, e, I.ProviderIds(provider, ResticSnapshot), scope, layoutOk) <==>
              !layoutOk(id)
    {
      I.ProviderIdsAreTagged(repo, provider, ResticSnapshot);
    }
  }

  lemma CoreIsListed(s: State, id: SnapshotId)
    requires ManifestOk(s) && id !in s.owner && id != ""
    ensures CoreEntry(id) in AppendNew(Copies(s.manifest, ResticSnapshot), [CoreEntry(id)])
  {
    var copies := Copies(s.manifest, ResticSnapshot);
    forall i | 0 <= i < |copies| ensures copies[i].reference != Reference(id) {
      ListedOnce(s, ResticSnapshot, copies[i]);
      ReferenceInjective(copies[i].snapshotId, id);
    }
    assert AppendNew(copies, []) == copies && [CoreEntry(id)][..0] == [];
    assert AppendNew(copies, [CoreEntry(id)]) == AppendOne(copies, CoreEntry(id));
  }
}
