/**
 The removal protocol of scripts/controlled-copy-retention.py as a state machine.

 Cleanups are served by a threading HTTP server and backups run beside it, so any number
 of operations are in flight and their steps interleave.  Each restic command and each
 locked manifest write is one step; between any two an operation may fail or crash.
 `Invariant` holds in every reachable state, and the theorems at the end read off what
 the protocol is for: nothing retained is ever lost, every disagreement between provider
 and manifest belongs to an operation in flight or interrupted, and an interruption that
 left new snapshots behind stays visible for ever.
 */
module RetentionProtocol {
  import opened ControlledCopies
  import opened SplitMigration

  /** A split in progress: the copy it replaces, the lineage to remove and the validated plan. */
  datatype Job = Job(mixed: Entry, target: Lineage, tree: map<Path, File>, prefix: string, entries: seq<SpecEntry>,
                     parts: seq<Part>)

  datatype Process =
    | BackedUp(id: SnapshotId)                        // core backup taken, not yet merged
    | Requested(copy: Entry, target: Lineage)         // cleanup chose a copy listed under its lineage
    | Splitting(job: Job, ids: seq<SnapshotId>)       // replacements taken so far
    | SplitForgotten(job: Job, ids: seq<SnapshotId>)  // mixed snapshot forgotten, manifest not yet replaced
    | Forgotten(copy: Entry)                          // exclusive snapshot forgotten, entry not yet removed

  /** A file's place: a snapshot and the path in it. */
  datatype Place = Place(snapshot: SnapshotId, path: Path)

  /** `repo` and `manifest` are the real state; the fields after `processes` record history. */
  datatype State = State(
    repo: Repository,
    manifest: Manifest,
    processes: map<nat, Process>,
    used: set<SnapshotId>,      // every id restic has assigned
    owner: map<SnapshotId, Store>,  // the store that listed each id ever listed
    residue: set<SnapshotId>,   // ids in flux when an operation stopped
    orphans: set<SnapshotId>,   // new snapshots of stopped operations
    removed: set<Lineage>,      // lineages of which a snapshot has been forgotten
    archive: map<Place, File>,  // every file ever backed up, by the place it was backed up to
    places: map<Place, Place>,  // the place where each of them is kept now
    made: map<SnapshotId, (SnapshotId, Lineage)>,  // replacements: the split snapshot and the lineage removed
    cleaned: set<(SnapshotId, Lineage)>)           // completed splits: snapshot and removed lineage

  datatype Action =
    | BackUpCore(pid: nat, id: SnapshotId, files: map<Path, File>)
    | MergeCore(pid: nat)
    | RequestCleanup(pid: nat, copy: Entry, target: Lineage)
    | BeginSplit(pid: nat, prefix: string, entries: seq<SpecEntry>, parts: seq<Part>)
    | BackUpPart(pid: nat, id: SnapshotId)
    | ForgetMixed(pid: nat)
    | ReplaceManifest(pid: nat)
    | ForgetExclusive(pid: nat)
    | RemoveEntry(pid: nat)
    | Stop(pid: nat)
    | AppendElsewhere(store: Store, additions: seq<Entry>)
    | RemoveElsewhere(store: Store, reference: string)

  // ---- Entries written by the operations

  function CoreEntry(id: SnapshotId): (e: Entry) {
    Entry(Reference(id), id, Lineage("communicator-core", id),
          ["message", "session_credential", "account_key"], false, true)
  }

  /** Message replacements are exclusive to their lineage; protected ones are filed under
      the removed lineage in their own store. */
  function PartEntry(job: Job, k: nat, id: SnapshotId): (e: Entry)
    requires k < |job.parts|
  {
    match job.parts[k].kind
    case Message(lineage) => Entry(Reference(id), id, lineage, ["message"], true, false)
    case _ => Entry(Reference(id), id, job.target, [], false, false)
  }

  function PartEntries(job: Job, ids: seq<SnapshotId>, store: Store): (r: seq<Entry>)
    requires |ids| <= |job.parts|
  {
    if ids == [] then []
    else
      var k := |ids| - 1;
      var rest := PartEntries(job, ids[..k], store);
      if job.parts[k].StoreOf() == store then rest + [PartEntry(job, k, ids[k])] else rest
  }

  /** The store that will list each replacement. */
  ghost function PartOwners(job: Job, ids: seq<SnapshotId>): (owners: map<SnapshotId, Store>)
    requires |ids| <= |job.parts|
  {
    if ids == [] then map[]
    else PartOwners(job, ids[..|ids| - 1])[ids[|ids| - 1] := job.parts[|ids| - 1].StoreOf()]
  }

  function CopiesAfterSplit(m: Manifest, job: Job, ids: seq<SnapshotId>, store: Store): (r: seq<Entry>)
    requires |ids| <= |job.parts|
  {
    if store == ResticSnapshot then
      AppendNew(Without(Copies(m, store), job.mixed.reference), PartEntries(job, ids, store))
    else
      AppendNew(Copies(m, store), PartEntries(job, ids, store))
  }

  function ManifestAfterSplit(m: Manifest, job: Job, ids: seq<SnapshotId>): (r: Manifest)
    requires |ids| <= |job.parts|
  {
    m[ResticSnapshot := CopiesAfterSplit(m, job, ids, ResticSnapshot)]
     [SessionCredentials := CopiesAfterSplit(m, job, ids, SessionCredentials)]
     [AccountKeys := CopiesAfterSplit(m, job, ids, AccountKeys)]
  }

  // ---- Steps

  function JobOf(s: State, p: Process, prefix: string, entries: seq<SpecEntry>, parts: seq<Part>): (job: Job)
    requires p.Requested? && p.copy.snapshotId in s.repo
  {
    Job(p.copy, p.target, s.repo[p.copy.snapshotId].files, prefix, entries, parts)
  }

  ghost predicate SplitPlan(job: Job) {
    && Covers(job.tree, job.prefix, job.entries)
    && DistinctPaths(job.entries)
    && Truthful(job.tree, job.prefix, job.entries)
    && HasKind(job.entries, Message(job.target))
    && job.parts != []
    && IsSplit(job.tree, job.prefix, job.entries, job.target, job.parts)
  }

  ghost predicate CanMerge(s: State, pid: nat) {
    pid in s.processes && s.processes[pid].BackedUp?
  }

  ghost predicate CanTakePart(s: State, pid: nat, id: SnapshotId) {
    && pid in s.processes && s.processes[pid].Splitting?
    && |s.processes[pid].ids| < |s.processes[pid].job.parts|
    && id !in s.used && id != ""
  }

  ghost predicate CanForgetMixed(s: State, pid: nat) {
    && pid in s.processes && s.processes[pid].Splitting?
    && |s.processes[pid].ids| == |s.processes[pid].job.parts|
  }

  ghost predicate CanReplace(s: State, pid: nat) {
    && pid in s.processes && s.processes[pid].SplitForgotten?
    && |s.processes[pid].ids| <= |s.processes[pid].job.parts|
  }

  ghost predicate CanRemoveEntry(s: State, pid: nat) {
    pid in s.processes && s.processes[pid].Forgotten?
  }

  ghost predicate Enabled(s: State, a: Action) {
    match a
    case BackUpCore(pid, id, _) => pid !in s.processes && id !in s.used && id != ""
    case MergeCore(pid) => CanMerge(s, pid)
    case RequestCleanup(pid, copy, target) =>
      pid !in s.processes && copy in Copies(s.manifest, ResticSnapshot) && target == copy.lineage
    case BeginSplit(pid, prefix, entries, parts) =>
      && pid in s.processes && s.processes[pid].Requested?
      && s.processes[pid].copy.classes != ["message"]
      && s.processes[pid].copy.snapshotId in s.repo
      && SplitPlan(JobOf(s, s.processes[pid], prefix, entries, parts))
    case BackUpPart(pid, id) => CanTakePart(s, pid, id)
    case ForgetMixed(pid) => CanForgetMixed(s, pid)
    case ReplaceManifest(pid) => CanReplace(s, pid)
    case ForgetExclusive(pid) =>
      && pid in s.processes && s.processes[pid].Requested?
      && s.processes[pid].copy.classes == ["message"] && s.processes[pid].copy.exclusive
    case RemoveEntry(pid) => CanRemoveEntry(s, pid)
    case Stop(pid) => pid in s.processes
    case AppendElsewhere(store, _) => !IsSnapshotStore(store)
    case RemoveElsewhere(store, _) => !IsSnapshotStore(store)
  }

  ghost function IdSet(ids: seq<SnapshotId>): set<SnapshotId> {
    set id | id in ids
  }

  /** Ids at which the provider and the manifest may differ because of this operation. */
  ghost function Flux(p: Process): (ids: set<SnapshotId>) {
    match p
    case BackedUp(id) => {id}
    case Requested(_, _) => {}
    case Splitting(_, ids) => IdSet(ids)
    case SplitForgotten(job, ids) => IdSet(ids) + {job.mixed.snapshotId}
    case Forgotten(copy) => {copy.snapshotId}
  }

  /** Snapshots this operation has created and no manifest lists yet. */
  ghost function Fresh(p: Process): (ids: set<SnapshotId>) {
    match p
    case BackedUp(id) => {id}
    case Splitting(_, ids) => IdSet(ids)
    case SplitForgotten(_, ids) => IdSet(ids)
    case _ => {}
  }

  /** The replacement that holds the file which the old tree had at `q`. */
  ghost predicate InPart(job: Job, k: int, p: Path, q: Path) {
    0 <= k < |job.parts| && p in job.parts[k].files && FullPath(job.prefix, p) == q
  }

  /** A file of the mixed snapshot is kept in its replacement from now on. */
  ghost function Move(job: Job, ids: seq<SnapshotId>, at: Place): (r: Place)
    requires |ids| == |job.parts|
  {
    if at.snapshot == job.mixed.snapshotId && exists k, p :: InPart(job, k, p, at.path) then
      var k, p :| InPart(job, k, p, at.path);
      Place(ids[k], p)
    else at
  }

  ghost function Moved(job: Job, ids: seq<SnapshotId>, places: map<Place, Place>): (r: map<Place, Place>)
    requires |ids| == |job.parts|
    ensures r.Keys == places.Keys && forall o :: o in places ==> r[o] == Move(job, ids, places[o])
  {
    map o | o in places :: Move(job, ids, places[o])
  }

  ghost function FilesAt(id: SnapshotId, files: map<Path, File>): (r: map<Place, File>)
    ensures forall o :: o in r <==> o.snapshot == id && o.path in files
    ensures forall o :: o in r ==> r[o] == files[o.path]
  {
    map p | p in files :: Place(id, p) := files[p]
  }

  ghost function PlacesAt(id: SnapshotId, files: map<Path, File>): (r: map<Place, Place>)
    ensures forall o :: o in r <==> o.snapshot == id && o.path in files
    ensures forall o :: o in r ==> r[o] == o
  {
    map p | p in files :: Place(id, p) := Place(id, p)
  }

  ghost function AfterCore(s: State, pid: nat, id: SnapshotId, files: map<Path, File>): (s': State) {
    s.(repo := s.repo[id := Snapshot(CORE_TAG, files)],
       used := s.used + {id},
       archive := s.archive + FilesAt(id, files),
       places := s.places + PlacesAt(id, files),
       processes := s.processes[pid := BackedUp(id)])
  }

  ghost function AfterBegin(s: State, pid: nat, job: Job): (s': State) {
    s.(processes := s.processes[pid := Splitting(job, [])])
  }

  ghost function AfterForgetExclusive(s: State, pid: nat, copy: Entry): (s': State) {
    s.(repo := s.repo - {copy.snapshotId},
       removed := s.removed + {copy.lineage},
       processes := s.processes[pid := Forgotten(copy)])
  }

  ghost function AfterMerge(s: State, pid: nat): (s': State)
    requires CanMerge(s, pid)
  {
    var id := s.processes[pid].id;
    s.(manifest := s.manifest[ResticSnapshot := AppendNew(Copies(s.manifest, ResticSnapshot), [CoreEntry(id)])],
       owner := s.owner[id := ResticSnapshot],
       processes := s.processes - {pid})
  }

  ghost function AfterPart(s: State, pid: nat, id: SnapshotId): (s': State)
    requires CanTakePart(s, pid, id)
  {
    var Splitting(job, ids) := s.processes[pid];
    s.(repo := s.repo[id := Snapshot(job.parts[|ids|].Tag(), job.parts[|ids|].files)],
       used := s.used + {id},
       made := s.made[id := (job.mixed.snapshotId, job.target)],
       processes := s.processes[pid := Splitting(job, ids + [id])])
  }

  ghost function AfterForgetMixed(s: State, pid: nat): (s': State)
    requires CanForgetMixed(s, pid)
  {
    var Splitting(job, ids) := s.processes[pid];
    s.(repo := s.repo - {job.mixed.snapshotId},
       removed := s.removed + {job.target},
       places := Moved(job, ids, s.places),
       processes := s.processes[pid := SplitForgotten(job, ids)])
  }

  ghost function AfterReplace(s: State, pid: nat): (s': State)
    requires CanReplace(s, pid)
  {
    var SplitForgotten(job, ids) := s.processes[pid];
    s.(manifest := ManifestAfterSplit(s.manifest, job, ids),
       owner := s.owner + PartOwners(job, ids),
       cleaned := s.cleaned + {(job.mixed.snapshotId, job.target)},
       processes := s.processes - {pid})
  }

  ghost function AfterRemoveEntry(s: State, pid: nat): (s': State)
    requires CanRemoveEntry(s, pid)
  {
    var copy := s.processes[pid].copy;
    s.(manifest := s.manifest[ResticSnapshot := Without(Copies(s.manifest, ResticSnapshot), copy.reference)],
       processes := s.processes - {pid})
  }

  ghost function AfterStop(s: State, pid: nat): (s': State)
    requires pid in s.processes
  {
    s.(residue := s.residue + Flux(s.processes[pid]),
       orphans := s.orphans + Fresh(s.processes[pid]),
       processes := s.processes - {pid})
  }

  ghost function Apply(s: State, a: Action): (s': State)
    requires Enabled(s, a)
  {
    match a
    case BackUpCore(pid, id, files) => AfterCore(s, pid, id, files)
    case MergeCore(pid) => AfterMerge(s, pid)
    case RequestCleanup(pid, copy, target) =>
      s.(processes := s.processes[pid := Requested(copy, target)])
    case BeginSplit(pid, prefix, entries, parts) =>
      AfterBegin(s, pid, JobOf(s, s.processes[pid], prefix, entries, parts))
    case BackUpPart(pid, id) => AfterPart(s, pid, id)
    case ForgetMixed(pid) => AfterForgetMixed(s, pid)
    case ReplaceManifest(pid) => AfterReplace(s, pid)
    case ForgetExclusive(pid) => AfterForgetExclusive(s, pid, s.processes[pid].copy)
    case RemoveEntry(pid) => AfterRemoveEntry(s, pid)
    case Stop(pid) => AfterStop(s, pid)
    case AppendElsewhere(store, additions) =>
      s.(manifest := s.manifest[store := AppendNew(Copies(s.manifest, store), additions)])
    case RemoveElsewhere(store, reference) =>
      s.(manifest := s.manifest[store := Without(Copies(s.manifest, store), reference)])
  }

  // ---- The invariant

  ghost predicate HeldAt(repo: Repository, at: Place, f: File) {
    at.snapshot in repo && at.path in repo[at.snapshot].files && repo[at.snapshot].files[at.path] == f
  }

  /** The path, or what is left of it below some directory. */
  ghost predicate IsTail(p: Path, q: Path) {
    p == q || (|p| < |q| && q[|q| - |p| - 1] == '/' && q[|q| - |p|..] == p)
  }

  ghost predicate IsRemoved(removed: set<Lineage>, kind: ContentClass) {
    kind.Message? && kind.lineage in removed
  }

  /** A copy whose cleanup forgets the whole snapshot holds nothing but its lineage. */
  ghost predicate Pure(repo: Repository, e: Entry) {
    e.classes == ["message"] && e.exclusive && e.snapshotId in repo ==>
      forall p :: p in repo[e.snapshotId].files ==> repo[e.snapshotId].files[p].kind == Message(e.lineage)
  }

  ghost predicate StoresOk(s: State) {
    && (forall store: Store :: UniqueReferences(Copies(s.manifest, store)))
    && (forall store: Store :: IsSnapshotStore(store) ==>
          && SnapshotEntries(Copies(s.manifest, store))
          && forall id :: id in ListedIds(Copies(s.manifest, store)) ==> id in s.owner && s.owner[id] == store)
  }

  ghost predicate ManifestOk(s: State) {
    StoresOk(s) && forall e :: e in Copies(s.manifest, ResticSnapshot) ==> Pure(s.repo, e)
  }

  ghost predicate HistoryOk(s: State) {
    && s.repo.Keys <= s.used && s.owner.Keys <= s.used && "" !in s.used
    && s.orphans <= s.residue
    && s.orphans <= s.repo.Keys && s.orphans !! s.owner.Keys
    && (forall id :: id in s.orphans ==> exists store :: IsSnapshotStore(store) && Controls(store, s.repo[id].tag))
  }

  /** A chosen copy was listed once, so its id is never a fresh one. */
  ghost predicate HeldOk(s: State, e: Entry) {
    && SnapshotEntry(e)
    && e.snapshotId in s.owner && s.owner[e.snapshotId] == ResticSnapshot
    && Pure(s.repo, e)
  }

  ghost predicate JobOk(s: State, job: Job, ids: seq<SnapshotId>) {
    && HeldOk(s, job.mixed)
    && (job.mixed.snapshotId in s.repo ==> s.repo[job.mixed.snapshotId].files == job.tree)
    && |ids| <= |job.parts|
    && (forall k :: 0 <= k < |ids| ==>
          ids[k] in s.repo && s.repo[ids[k]] == Snapshot(job.parts[k].Tag(), job.parts[k].files))
    && (forall j, k :: 0 <= j < k < |ids| ==> ids[j] != ids[k])
  }

  ghost predicate ProcessOk(s: State, p: Process) {
    && Fresh(p) !! s.owner.Keys && Fresh(p) !! s.orphans
    && match p
       case BackedUp(id) => id in s.repo && s.repo[id].tag == CORE_TAG
       case Requested(copy, _) => HeldOk(s, copy)
       case Splitting(job, ids) => JobOk(s, job, ids)
       case SplitForgotten(job, ids) => JobOk(s, job, ids) && |ids| == |job.parts| && job.mixed.snapshotId !in s.repo
       case Forgotten(copy) => HeldOk(s, copy) && copy.snapshotId !in s.repo
  }

  ghost predicate ProcessesOk(s: State) {
    && (forall pid :: pid in s.processes ==> ProcessOk(s, s.processes[pid]))
    && (forall p, q :: p in s.processes && q in s.processes && p != q ==>
          Fresh(s.processes[p]) !! Fresh(s.processes[q]))
  }

  /** Every split in progress follows a validated plan. */
  ghost predicate PlansOk(s: State) {
    AllPlanned(s.processes)
  }

  ghost predicate AllPlanned(processes: map<nat, Process>) {
    forall pid :: pid in processes ==> Planned(processes[pid])
  }

  ghost predicate Planned(p: Process) {
    p.Splitting? || p.SplitForgotten? ==> SplitPlan(p.job)
  }

  /** The id is in flux for an operation in flight, or was for one that stopped. */
  ghost predicate Explained(s: State, id: SnapshotId) {
    id in s.residue || exists pid :: pid in s.processes && id in Flux(s.processes[pid])
  }

  /** One of provider and manifest names the snapshot and the other does not. */
  ghost predicate DisagreeOn(repo: Repository, m: Manifest, store: Store, id: SnapshotId) {
    (id in TaggedIds(repo, store)) != (id in ListedIds(Copies(m, store)))
  }

  ghost predicate Disagrees(s: State, store: Store, id: SnapshotId) {
    DisagreeOn(s.repo, s.manifest, store, id)
  }

  ghost predicate DisagreementExplained(s: State) {
    forall store, id :: IsSnapshotStore(store) && Disagrees(s, store, id) ==> Explained(s, id)
  }

  /** Each file outside the removed lineages is where `places` says, bytes and path kept. */
  ghost predicate Kept(repo: Repository, archive: map<Place, File>, removed: set<Lineage>, places: map<Place, Place>) {
    forall o :: o in archive && !IsRemoved(removed, archive[o].kind) ==> KeptAt(repo, o, archive[o], places)
  }

  ghost predicate KeptAt(repo: Repository, o: Place, f: File, places: map<Place, Place>) {
    o in places && HeldAt(repo, places[o], f) && IsTail(places[o].path, o.path)
  }

  ghost predicate NothingLost(s: State) {
    Kept(s.repo, s.archive, s.removed, s.places)
  }

  ghost predicate OneToOne(places: map<Place, Place>) {
    forall o, q :: o in places && q in places && o != q ==> places[o] != places[q]
  }

  /** No two files share a place, and nothing is kept yet in the replacements of a split that
      still has the mixed snapshot. */
  ghost predicate PlacesOk(s: State) {
    && OneToOne(s.places)
    && (forall o :: o in s.archive ==> o.snapshot in s.used)
    && (forall o :: o in s.places ==> o.snapshot in s.used && s.places[o].snapshot in s.used)
    && (forall o, pid :: o in s.places && pid in s.processes && s.processes[pid].Splitting? ==>
          s.places[o].snapshot !in s.processes[pid].ids)
  }

  ghost predicate Invariant(s: State) {
    && ManifestOk(s) && HistoryOk(s) && ProcessesOk(s) && PlansOk(s)
    && DisagreementExplained(s) && NothingLost(s) && PlacesOk(s)
  }
}
