/**
 A completed cleanup has removed its lineage from everything made of the snapshot it split.

 Cleanups are served concurrently and no lock surrounds one, so several of them may split the
 same snapshot at once.  A cleanup chooses only among the copies listed under the lineage it
 removes, and a snapshot is listed under one lineage all its life, so all of them remove the
 same lineage, whatever they overlap with and wherever they stop.
 */
module RetentionRemoval {
  import opened ControlledCopies
  import opened SplitMigration
  import opened RetentionProtocol
  import opened RetentionSafety

  ghost predicate Holds(repo: Repository, id: SnapshotId, lineage: Lineage) {
    id in repo && exists p :: p in repo[id].files && repo[id].files[p].kind == Message(lineage)
  }

  // ---- What is known of replacements in every run

  /** Replacements have ids of their own and never hold the lineage they were made without;
      a snapshot whose split was completed is gone. */
  ghost predicate MadeOk(s: State) {
    && (forall id :: id in s.made ==> id in s.used && !Holds(s.repo, id, s.made[id].1))
    && (forall c :: c in s.cleaned ==> c.0 in s.used && c.0 !in s.repo)
  }

  lemma NewPartIsFree(s: State, pid: nat, id: SnapshotId)
    requires Invariant(s) && CanTakePart(s, pid, id)
    ensures !Holds(AfterPart(s, pid, id).repo, id, s.processes[pid].job.target)
  {
    var Splitting(job, ids) := s.processes[pid];
    assert Planned(s.processes[pid]);
    SplitConserves(job.tree, job.prefix, job.entries, job.target, job.parts);
  }

  lemma MadeAfterPart(s: State, pid: nat, id: SnapshotId)
    requires Invariant(s) && MadeOk(s) && CanTakePart(s, pid, id)
    ensures MadeOk(AfterPart(s, pid, id))
  {
    NewPartIsFree(s, pid, id);
    OneMoreMade(s, AfterPart(s, pid, id), id);
  }

  lemma OneMoreMade(s: State, s': State, id: SnapshotId)
    requires MadeOk(s) && id !in s.used && s'.used == s.used + {id} && s'.cleaned == s.cleaned
    requires id in s'.repo && s'.repo == s.repo[id := s'.repo[id]] && id in s'.made &&
             s'.made == s.made[id := s'.made[id]]
    requires !Holds(s'.repo, id, s'.made[id].1)
    ensures MadeOk(s')
  {
    forall x | x in s'.made ensures x in s'.used && !Holds(s'.repo, x, s'.made[x].1) {
      if x != id { assert x in s.made && !Holds(s.repo, x, s.made[x].1); }
    }
  }

  /** Steps that make no replacement: old snapshots stay as they are or go. */
  lemma MadeStays(s: State, s': State)
    requires MadeOk(s) && RepoEvolves(s, s') && s'.made == s.made && s.used <= s'.used
    requires forall c :: c in s'.cleaned ==> c in s.cleaned || (c.0 in s'.used && c.0 !in s'.repo)
    ensures MadeOk(s')
  {
    forall id | id in s'.made ensures id in s'.used && !Holds(s'.repo, id, s'.made[id].1) {
      assert !Holds(s.repo, id, s.made[id].1);
    }
  }

  lemma CompletedIsGone(s: State, pid: nat)
    requires Invariant(s) && CanReplace(s, pid)
    ensures var m := s.processes[pid].job.mixed.snapshotId; m in s.used && m !in s.repo
  {
    assert ProcessOk(s, s.processes[pid]);
  }

  lemma MadeStep(s: State, a: Action)
    requires Invariant(s) && MadeOk(s) && Enabled(s, a)
    ensures MadeOk(Apply(s, a))
  {
    if a.BackUpPart? {
      MadeAfterPart(s, a.pid, a.id);
    } else if a.ReplaceManifest? {
      MadeAfterReplace(s, a.pid);
    } else {
      NothingMade(s, a);
      MadeStays(s, Apply(s, a));
    }
  }

  lemma MadeAfterReplace(s: State, pid: nat)
    requires Invariant(s) && MadeOk(s) && CanReplace(s, pid)
    ensures MadeOk(AfterReplace(s, pid))
  {
    CompletedIsGone(s, pid);
    MadeWhenGone(s, pid);
  }

  lemma MadeWhenGone(s: State, pid: nat)
    requires MadeOk(s) && CanReplace(s, pid)
    requires var m := s.processes[pid].job.mixed.snapshotId; m in s.used && m !in s.repo
    ensures MadeOk(AfterReplace(s, pid))
  {
    MadeStays(s, AfterReplace(s, pid));
  }

  lemma NothingMade(s: State, a: Action)
    requires Enabled(s, a) && !a.BackUpPart? && !a.ReplaceManifest?
    ensures var s' := Apply(s, a);
            RepoEvolves(s, s') && s'.made == s.made && s'.cleaned == s.cleaned && s.used <= s'.used
  {
  }

  lemma MadeInRuns(states: seq<State>, actions: seq<Action>, i: nat)
    requires IsRun(states, actions) && i < |states|
    ensures MadeOk(states[i])
  {
    var ok := seq(i + 1, k requires 0 <= k <= i => MadeOk(states[k]));
    forall k | 0 <= k < i ensures ok[k] ==> ok[k + 1] {
      if MadeOk(states[k]) { MadeNext(states, actions, k); }
    }
    Throughout(ok, i);
  }

  lemma MadeNext(states: seq<State>, actions: seq<Action>, i: nat)
    requires IsRun(states, actions) && i < |actions| && MadeOk(states[i])
    ensures MadeOk(states[i + 1])
  {
    RunKeeps(states, actions, i);
    RunStep(states, actions, i);
    MadeStep(states[i], actions[i]);
  }

  // ---- A snapshot is listed in one way all its life

  ghost predicate FiledAs(filed: map<SnapshotId, Entry>, e: Entry) {
    e.snapshotId in filed && filed[e.snapshotId] == e
  }

  /** A replacement was made of a mixed snapshot without the lineage this one is filed under,
      and is itself filed as a message copy, if at all. */
  ghost predicate MadeFiled(filed: map<SnapshotId, Entry>, id: SnapshotId, origin: (SnapshotId, Lineage)) {
    && origin.0 in filed && filed[origin.0].lineage == origin.1 && filed[origin.0].classes != ["message"]
    && (id in filed ==> filed[id].classes == ["message"])
  }

  /** A cleanup removes the lineage under which its copy is filed. */
  ghost predicate ProcessFiled(filed: map<SnapshotId, Entry>, made: set<SnapshotId>, p: Process) {
    match p
    case BackedUp(id) => id !in made
    case Requested(copy, target) => FiledAs(filed, copy) && target == copy.lineage
    case Splitting(job, _) => JobFiled(filed, job)
    case SplitForgotten(job, _) => JobFiled(filed, job)
    case Forgotten(_) => true
  }

  ghost predicate JobFiled(filed: map<SnapshotId, Entry>, job: Job) {
    FiledAs(filed, job.mixed) && job.target == job.mixed.lineage && job.mixed.classes != ["message"]
  }

  ghost predicate ManifestFiled(filed: map<SnapshotId, Entry>, m: Manifest) {
    forall e :: e in Copies(m, ResticSnapshot) ==> FiledAs(filed, e)
  }

  ghost predicate ProcessesFiled(filed: map<SnapshotId, Entry>, made: set<SnapshotId>, processes: map<nat, Process>) {
    forall pid :: pid in processes ==> ProcessFiled(filed, made, processes[pid])
  }

  ghost predicate HistoryFiled(s: State, filed: map<SnapshotId, Entry>) {
    && filed.Keys <= s.owner.Keys
    && (forall id :: id in s.made ==> MadeFiled(filed, id, s.made[id]))
    && (forall c :: c in s.cleaned ==> c.0 in filed && filed[c.0].lineage == c.1)
  }

  /** `filed` gives the one entry under which each snapshot is or was listed. */
  ghost predicate Filed(s: State, filed: map<SnapshotId, Entry>) {
    && HistoryFiled(s, filed)
    && ManifestFiled(filed, s.manifest)
    && ProcessesFiled(filed, s.made.Keys, s.processes)
  }

  lemma EntriesById(copies: seq<Entry>) returns (filed: map<SnapshotId, Entry>)
    requires SnapshotEntries(copies) && UniqueReferences(copies)
    ensures forall e :: e in copies ==> FiledAs(filed, e)
    ensures filed.Keys == ListedIds(copies)
  {
    filed := map i | 0 <= i < |copies| :: copies[i].snapshotId := copies[i];
  }

  lemma InitiallyFiled(s: State) returns (filed: map<SnapshotId, Entry>)
    requires Initial(s)
    ensures Filed(s, filed)
  {
    filed := EntriesById(Copies(s.manifest, ResticSnapshot));
  }

  ghost predicate Extends(filed: map<SnapshotId, Entry>, after: map<SnapshotId, Entry>) {
    forall id :: id in filed ==> id in after && after[id] == filed[id]
  }

  lemma OneProcessFiled(filed: map<SnapshotId, Entry>, made: set<SnapshotId>, processes: map<nat, Process>, pid: nat,
                        p: Process)
    requires ProcessesFiled(filed, made, processes) && ProcessFiled(filed, made, p)
    ensures ProcessesFiled(filed, made, processes[pid := p])
  {
  }

  /** Steps that change one operation at most. */
  lemma OperationFiled(s: State, s': State, filed: map<SnapshotId, Entry>, pid: nat, p: Process)
    requires Filed(s, filed) && ProcessFiled(filed, s.made.Keys, p)
    requires s'.made == s.made && s'.cleaned == s.cleaned && s'.owner == s.owner && s'.manifest == s.manifest
    requires s'.processes == s.processes[pid := p]
    ensures Filed(s', filed)
  {
    OneProcessFiled(filed, s.made.Keys, s.processes, pid, p);
  }

  lemma CoreFiled(s: State, filed: map<SnapshotId, Entry>, pid: nat, id: SnapshotId, files: map<Path, File>)
    requires Filed(s, filed) && MadeOk(s) && id !in s.used
    ensures Filed(AfterCore(s, pid, id, files), filed)
  {
    OperationFiled(s, AfterCore(s, pid, id, files), filed, pid, BackedUp(id));
  }

  lemma RequestFiled(s: State, filed: map<SnapshotId, Entry>, a: Action)
    requires Filed(s, filed) && a.RequestCleanup? && Enabled(s, a)
    ensures Filed(Apply(s, a), filed)
  {
    OperationFiled(s, Apply(s, a), filed, a.pid, Requested(a.copy, a.target));
  }

  lemma BeginFiled(s: State, filed: map<SnapshotId, Entry>, a: Action)
    requires Filed(s, filed) && a.BeginSplit? && Enabled(s, a)
    ensures Filed(Apply(s, a), filed)
  {
    var p := s.processes[a.pid];
    assert ProcessFiled(filed, s.made.Keys, p);
    OperationFiled(s, Apply(s, a), filed, a.pid, Splitting(JobOf(s, p, a.prefix, a.entries, a.parts), []));
  }

  lemma ForgetMixedFiled(s: State, filed: map<SnapshotId, Entry>, pid: nat)
    requires Filed(s, filed) && CanForgetMixed(s, pid)
    ensures Filed(AfterForgetMixed(s, pid), filed)
  {
    var p := s.processes[pid];
    assert ProcessFiled(filed, s.made.Keys, p);
    OperationFiled(s, AfterForgetMixed(s, pid), filed, pid, SplitForgotten(p.job, p.ids));
  }

  lemma ForgetExclusiveFiled(s: State, filed: map<SnapshotId, Entry>, pid: nat, copy: Entry)
    requires Filed(s, filed)
    ensures Filed(AfterForgetExclusive(s, pid, copy), filed)
  {
    OperationFiled(s, AfterForgetExclusive(s, pid, copy), filed, pid, Forgotten(copy));
  }

  /** Steps that only drop operations and entries, or write to stores of no snapshots. */
  lemma DroppedFiled(s: State, s': State, filed: map<SnapshotId, Entry>)
    requires Filed(s, filed)
    requires s'.made == s.made && s'.cleaned == s.cleaned && s'.owner == s.owner
    requires forall e :: e in Copies(s'.manifest, ResticSnapshot) ==> e in Copies(s.manifest, ResticSnapshot)
    requires forall pid :: pid in s'.processes ==> pid in s.processes && s'.processes[pid] == s.processes[pid]
    ensures Filed(s', filed)
  {
  }

  lemma RemoveFiled(s: State, filed: map<SnapshotId, Entry>, pid: nat)
    requires Filed(s, filed) && CanRemoveEntry(s, pid)
    ensures Filed(AfterRemoveEntry(s, pid), filed)
  {
    WithoutEntries(Copies(s.manifest, ResticSnapshot), s.processes[pid].copy.reference);
    DroppedFiled(s, AfterRemoveEntry(s, pid), filed);
  }

  /** A replacement is new, so it is filed nowhere yet. */
  lemma PartFiled(s: State, filed: map<SnapshotId, Entry>, pid: nat, id: SnapshotId)
    requires HistoryOk(s) && ProcessesOk(s) && Filed(s, filed) && CanTakePart(s, pid, id)
    ensures Filed(AfterPart(s, pid, id), filed)
  {
    var s', p := AfterPart(s, pid, id), s.processes[pid];
    assert ProcessFiled(filed, s.made.Keys, p);
    assert s'.made.Keys == s.made.Keys + {id};
    forall q | q in s'.processes ensures ProcessFiled(filed, s'.made.Keys, s'.processes[q]) {
      if q != pid {
        assert ProcessFiled(filed, s.made.Keys, s.processes[q]) && ProcessOk(s, s.processes[q]);
      }
    }
  }

  /** More entries of snapshots that no store has listed. */
  lemma ExtendedHistory(s: State, s': State, filed: map<SnapshotId, Entry>, after: map<SnapshotId, Entry>)
    requires HistoryFiled(s, filed) && Extends(filed, after) && after.Keys <= s'.owner.Keys && s'.made == s.made
    requires forall id :: id in after && id !in filed && id in s.made ==> after[id].classes == ["message"]
    requires forall c :: c in s'.cleaned ==> c in s.cleaned || (c.0 in filed && filed[c.0].lineage == c.1)
    ensures HistoryFiled(s', after)
  {
    forall id | id in s'.made ensures MadeFiled(after, id, s'.made[id]) { assert MadeFiled(filed, id, s.made[id]); }
  }

  lemma ExtendedProcesses(filed: map<SnapshotId, Entry>, after: map<SnapshotId, Entry>, made: set<SnapshotId>,
                          processes: map<nat, Process>, pid: nat)
    requires ProcessesFiled(filed, made, processes) && Extends(filed, after)
    ensures ProcessesFiled(after, made, processes - {pid})
  {
  }

  lemma MergeFiled(s: State, filed: map<SnapshotId, Entry>, pid: nat) returns (after: map<SnapshotId, Entry>)
    requires ProcessesOk(s) && Filed(s, filed) && CanMerge(s, pid)
    ensures Filed(AfterMerge(s, pid), after)
  {
    var id := s.processes[pid].id;
    assert ProcessOk(s, s.processes[pid]) && id in Fresh(s.processes[pid]);
    assert ProcessFiled(filed, s.made.Keys, s.processes[pid]);
    after := filed[id := CoreEntry(id)];
    ExtendedHistory(s, AfterMerge(s, pid), filed, after);
    ExtendedProcesses(filed, after, s.made.Keys, s.processes, pid);
    AppendedEntries(Copies(s.manifest, ResticSnapshot), [CoreEntry(id)]);
  }

  /** The entries written for the message replacements, by snapshot. */
  lemma PartsById(job: Job, ids: seq<SnapshotId>) returns (parts: map<SnapshotId, Entry>)
    requires |ids| <= |job.parts| && "" !in ids && forall j, k :: 0 <= j < k < |ids| ==> ids[j] != ids[k]
    ensures forall e :: e in PartEntries(job, ids, ResticSnapshot) ==> FiledAs(parts, e)
    ensures forall id :: id in parts ==> id in ids && parts[id].classes == ["message"]
  {
    parts := map k | 0 <= k < |ids| && job.parts[k].kind.Message? :: ids[k] := PartEntry(job, k, ids[k]);
    PartEntriesAre(job, ids, ResticSnapshot);
  }

  lemma ReplaceFiled(s: State, filed: map<SnapshotId, Entry>, pid: nat) returns (after: map<SnapshotId, Entry>)
    requires HistoryOk(s) && ProcessesOk(s) && Filed(s, filed) && CanReplace(s, pid)
    ensures Filed(AfterReplace(s, pid), after)
  {
    var p := s.processes[pid];
    var parts := NewParts(s, filed, pid);
    after := filed + parts;
    ReplacedHistoryFiled(s, filed, pid, parts);
    ExtendedProcesses(filed, after, s.made.Keys, s.processes, pid);
    ReplacedManifestFiled(s.manifest, p.job, p.ids, filed, parts);
  }

  lemma NewParts(s: State, filed: map<SnapshotId, Entry>, pid: nat) returns (parts: map<SnapshotId, Entry>)
    requires HistoryOk(s) && ProcessesOk(s) && filed.Keys <= s.owner.Keys && CanReplace(s, pid)
    ensures forall e :: e in PartEntries(s.processes[pid].job, s.processes[pid].ids, ResticSnapshot) ==>
              FiledAs(parts, e)
    ensures forall id :: id in parts ==> parts[id].classes == ["message"]
    ensures parts.Keys <= AfterReplace(s, pid).owner.Keys && parts.Keys !! filed.Keys
  {
    var p := s.processes[pid];
    assert ProcessOk(s, p);
    FreshInRepo(s, p);
    parts := PartsById(p.job, p.ids);
    assert forall id :: id in parts ==> id in Fresh(p);
    PartOwnersAre(p.job, p.ids);
  }

  lemma ReplacedHistoryFiled(s: State, filed: map<SnapshotId, Entry>, pid: nat, parts: map<SnapshotId, Entry>)
    requires Filed(s, filed) && CanReplace(s, pid) && parts.Keys !! filed.Keys
    requires parts.Keys <= AfterReplace(s, pid).owner.Keys
    requires forall id :: id in parts ==> parts[id].classes == ["message"]
    ensures HistoryFiled(AfterReplace(s, pid), filed + parts)
  {
    assert ProcessFiled(filed, s.made.Keys, s.processes[pid]);
    ExtendedHistory(s, AfterReplace(s, pid), filed, filed + parts);
  }

  lemma ReplacedManifestFiled(m: Manifest, job: Job, ids: seq<SnapshotId>, filed: map<SnapshotId, Entry>,
                              parts: map<SnapshotId, Entry>)
    requires |ids| <= |job.parts| && ManifestFiled(filed, m) && filed.Keys !! parts.Keys
    requires forall e :: e in PartEntries(job, ids, ResticSnapshot) ==> FiledAs(parts, e)
    ensures ManifestFiled(filed + parts, ManifestAfterSplit(m, job, ids))
  {
    var kept := Without(Copies(m, ResticSnapshot), job.mixed.reference);
    ResticAfterSplit(m, job, ids);
    WithoutEntries(Copies(m, ResticSnapshot), job.mixed.reference);
    AppendedEntries(kept, PartEntries(job, ids, ResticSnapshot));
  }

  lemma FiledStep(s: State, a: Action, filed: map<SnapshotId, Entry>) returns (after: map<SnapshotId, Entry>)
    requires Invariant(s) && MadeOk(s) && Filed(s, filed) && Enabled(s, a)
    ensures Filed(Apply(s, a), after)
  {
    if a.MergeCore? {
      after := MergeFiled(s, filed, a.pid);
    } else if a.ReplaceManifest? {
      after := ReplaceFiled(s, filed, a.pid);
    } else {
      after := filed;
      SameFiled(s, a, filed);
    }
  }

  /** Steps that list no new snapshot. */
  lemma SameFiled(s: State, a: Action, filed: map<SnapshotId, Entry>)
    requires HistoryOk(s) && ProcessesOk(s) && MadeOk(s) && Filed(s, filed)
    requires Enabled(s, a) && !a.MergeCore? && !a.ReplaceManifest?
    ensures Filed(Apply(s, a), filed)
  {
    match a
    case BackUpCore(pid, id, files) => CoreFiled(s, filed, pid, id, files);
    case RequestCleanup(_, _, _) => RequestFiled(s, filed, a);
    case BeginSplit(_, _, _, _) => BeginFiled(s, filed, a);
    case BackUpPart(pid, id) => PartFiled(s, filed, pid, id);
    case ForgetMixed(pid) => ForgetMixedFiled(s, filed, pid);
    case ForgetExclusive(pid) => ForgetExclusiveFiled(s, filed, pid, s.processes[pid].copy);
    case RemoveEntry(pid) => RemoveFiled(s, filed, pid);
    case Stop(pid) => DroppedFiled(s, AfterStop(s, pid), filed);
    case AppendElsewhere(_, _) => DroppedFiled(s, Apply(s, a), filed);
    case RemoveElsewhere(_, _) => DroppedFiled(s, Apply(s, a), filed);
  }

  lemma {:induction false} FiledInRuns(states: seq<State>, actions: seq<Action>, i: nat)
    returns (filed: map<SnapshotId, Entry>)
    requires IsRun(states, actions) && i < |states|
    ensures Filed(states[i], filed)
  {
    if i == 0 {
      filed := InitiallyFiled(states[0]);
    } else {
      var before := FiledInRuns(states, actions, i - 1);
      filed := FiledNext(states, actions, i - 1, before);
    }
  }

  lemma FiledNext(states: seq<State>, actions: seq<Action>, i: nat, filed: map<SnapshotId, Entry>)
    returns (after: map<SnapshotId, Entry>)
    requires IsRun(states, actions) && i < |actions| && Filed(states[i], filed)
    ensures Filed(states[i + 1], after)
  {
    RunKeeps(states, actions, i);
    MadeInRuns(states, actions, i);
    RunStep(states, actions, i);
    after := FiledStep(states[i], actions[i], filed);
  }

  // ---- What every run removes

  /** All replacements of one snapshot, by whatever cleanups, were made without the same
      lineage, and none of them ever holds it. */
  lemma OneLineagePerSnapshot(states: seq<State>, actions: seq<Action>, i: nat, x: SnapshotId, y: SnapshotId)
    requires IsRun(states, actions) && i < |states| && x in states[i].made && y in states[i].made
    requires states[i].made[x].0 == states[i].made[y].0
    ensures states[i].made[x].1 == states[i].made[y].1 && !Holds(states[i].repo, x, states[i].made[y].1)
  {
    var filed := FiledInRuns(states, actions, i);
    MadeInRuns(states, actions, i);
    assert MadeFiled(filed, x, states[i].made[x]) && MadeFiled(filed, y, states[i].made[y]);
  }

  /** No replacement is split again. */
  lemma ReplacementsAreFinal(states: seq<State>, actions: seq<Action>, i: nat, id: SnapshotId)
    requires IsRun(states, actions) && i < |states| && id in states[i].made
    ensures states[i].made[id].0 !in states[i].made
  {
    var filed := FiledInRuns(states, actions, i);
    var origin := states[i].made[id].0;
    assert MadeFiled(filed, id, states[i].made[id]);
    assert origin in states[i].made ==> MadeFiled(filed, origin, states[i].made[origin]);
  }

  /** Each snapshot of the line but the first was made of the one before it. */
  ghost predicate IsLine(made: map<SnapshotId, (SnapshotId, Lineage)>, line: seq<SnapshotId>) {
    line != [] && forall k :: 0 < k < |line| ==> line[k] in made && made[line[k]].0 == line[k - 1]
  }

  lemma LinesAreShort(states: seq<State>, actions: seq<Action>, i: nat, line: seq<SnapshotId>)
    requires IsRun(states, actions) && i < |states| && IsLine(states[i].made, line)
    ensures |line| <= 2
  {
    if |line| > 2 {
      assert line[1] in states[i].made && line[2] in states[i].made;
      ReplacementsAreFinal(states, actions, i, line[2]);
    }
  }

  lemma CompletionsOnlyGrow(states: seq<State>, actions: seq<Action>, i: nat, j: nat, c: (SnapshotId, Lineage))
    requires IsRun(states, actions) && i <= j < |states| && c in states[i].cleaned
    ensures c in states[j].cleaned
  {
    var kept := seq(j - i + 1, k requires 0 <= k <= j - i => c in states[i + k].cleaned);
    forall k | 0 <= k < j - i ensures kept[k] ==> kept[k + 1] {
      RunStep(states, actions, i + k);
      CompletionsStep(states[i + k], actions[i + k]);
    }
    Throughout(kept, j - i);
  }

  lemma CompletionsStep(s: State, a: Action)
    requires Enabled(s, a)
    ensures s.cleaned <= Apply(s, a).cleaned
  {
  }

  /** From the moment the cleanup of a lineage on a snapshot is complete, neither the snapshot
      nor anything made of it, directly or not, by this cleanup or another, completed, under way
      or interrupted, holds the lineage. */
  lemma CleanedLineageIsGone(states: seq<State>, actions: seq<Action>, i: nat, j: nat, line: seq<SnapshotId>,
                             lineage: Lineage)
    requires IsRun(states, actions) && i <= j < |states| && IsLine(states[j].made, line)
    requires (line[0], lineage) in states[i].cleaned
    ensures !Holds(states[j].repo, line[|line| - 1], lineage)
  {
    CompletionsOnlyGrow(states, actions, i, j, (line[0], lineage));
    MadeInRuns(states, actions, j);
    LinesAreShort(states, actions, j, line);
    if |line| == 2 {
      var filed := FiledInRuns(states, actions, j);
      assert MadeFiled(filed, line[1], states[j].made[line[1]]);
    }
  }
}
