/**
 Controlled copies: the snapshot repository, the manifest that lists its copies, and the
 edits made to the manifest by scripts/controlled-copy-retention.py and
 scripts/merge-controlled-copy-manifest.py.  Every edit runs under one file lock and ends
 in an atomic rename, so each is a single function from manifest to manifest.
 */
module ControlledCopies {

  type SnapshotId = string
  type Path = string

  datatype Lineage = Lineage(resource: string, generation: string)

  /** What a file is: content of one message lineage, or protected credential material. */
  datatype ContentClass = Message(lineage: Lineage) | SessionCredential | AccountKey

  datatype File = File(bytes: string, kind: ContentClass)

  datatype Snapshot = Snapshot(tag: string, files: map<Path, File>)

  type Repository = map<SnapshotId, Snapshot>

  datatype Store =
    | ResticSnapshot | SessionCredentials | AccountKeys
    | ProjectionBackup | Synapse | BridgeDatabase | MediaStore | Queue

  /** One manifest copy.  `snapshotId` is empty for copies that are not snapshots. */
  datatype Entry = Entry(
    reference: string,
    snapshotId: SnapshotId,
    lineage: Lineage,
    classes: seq<string>,
    exclusive: bool,
    aggregateCoverage: bool)

  type Manifest = map<Store, seq<Entry>>

  const CORE_TAG := "communicator-core"
  const MESSAGE_TAG := "communicator-message-migrated"
  const SESSION_TAG := "communicator-session_credentials-migrated"
  const KEYS_TAG := "communicator-account_keys-migrated"

  function Reference(id: SnapshotId): (r: string) {
    "restic:" + id
  }

  lemma ReferenceInjective(a: SnapshotId, b: SnapshotId)
    ensures Reference(a) == Reference(b) <==> a == b
  {
    assert Reference(a)[7..] == a && Reference(b)[7..] == b;
  }

  // ---- Which snapshots a store controls

  predicate IsSnapshotStore(store: Store) {
    store == ResticSnapshot || store == SessionCredentials || store == AccountKeys
  }

  function AllowedTags(store: Store): (tags: seq<string>) {
    match store
    case ResticSnapshot => [CORE_TAG, MESSAGE_TAG]
    case SessionCredentials => [SESSION_TAG]
    case AccountKeys => [KEYS_TAG]
    case _ => []
  }

  /** A tag is controlled by a store when an allowed tag is a prefix of it. */
  predicate Controls(store: Store, tag: string) {
    exists i :: 0 <= i < |AllowedTags(store)| && AllowedTags(store)[i] <= tag
  }

  /** The four tags the scripts use each belong to exactly one store. */
  lemma TagsSeparate(store: Store)
    ensures Controls(store, CORE_TAG) <==> store == ResticSnapshot
    ensures Controls(store, MESSAGE_TAG) <==> store == ResticSnapshot
    ensures Controls(store, SESSION_TAG) <==> store == SessionCredentials
    ensures Controls(store, KEYS_TAG) <==> store == AccountKeys
  {
    assert CORE_TAG[13] == 'c' && MESSAGE_TAG[13] == 'm' && SESSION_TAG[13] == 's' && KEYS_TAG[13] == 'a';
    assert AllowedTags(ResticSnapshot)[0] <= CORE_TAG;
    assert AllowedTags(ResticSnapshot)[1] <= MESSAGE_TAG;
    assert AllowedTags(SessionCredentials)[0] <= SESSION_TAG;
    assert AllowedTags(AccountKeys)[0] <= KEYS_TAG;
  }

  ghost function TaggedIds(repo: Repository, store: Store): (ids: set<SnapshotId>) {
    set id | id in repo && Controls(store, repo[id].tag)
  }

  function Copies(m: Manifest, store: Store): (copies: seq<Entry>) {
    if store in m then m[store] else []
  }

  ghost function ListedIds(copies: seq<Entry>): (ids: set<SnapshotId>) {
    set i | 0 <= i < |copies| && copies[i].snapshotId != "" :: copies[i].snapshotId
  }

  /** Provider and manifest name the same snapshots: what an inventory reports as complete. */
  ghost predicate Agree(repo: Repository, m: Manifest, store: Store) {
    TaggedIds(repo, store) == ListedIds(Copies(m, store))
  }

  // ---- Manifest edits

  predicate HasReference(copies: seq<Entry>, reference: string) {
    exists i :: 0 <= i < |copies| && copies[i].reference == reference
  }

  ghost predicate UniqueReferences(copies: seq<Entry>) {
    forall i, j :: 0 <= i < j < |copies| ==> copies[i].reference != copies[j].reference
  }

  function AppendOne(copies: seq<Entry>, entry: Entry): (r: seq<Entry>) {
    if HasReference(copies, entry.reference) then copies else copies + [entry]
  }

  function AppendNew(copies: seq<Entry>, additions: seq<Entry>): (r: seq<Entry>) {
    if additions == [] then copies
    else AppendOne(AppendNew(copies, additions[..|additions| - 1]), additions[|additions| - 1])
  }

  function Without(copies: seq<Entry>, reference: string): (r: seq<Entry>) {
    if copies == [] then []
    else
      var kept := Without(copies[..|copies| - 1], reference);
      if copies[|copies| - 1].reference == reference then kept else kept + [copies[|copies| - 1]]
  }

  /** The append loop with its running set of references. */
  method AppendEntries(copies: seq<Entry>, additions: seq<Entry>) returns (r: seq<Entry>)
    ensures r == AppendNew(copies, additions)
    ensures UniqueReferences(copies) ==> UniqueReferences(r)
    ensures copies <= r
    ensures forall e :: e in r ==> e in copies || e in additions
    ensures forall i :: 0 <= i < |additions| ==> HasReference(r, additions[i].reference)
  {
    r := copies;
    var references := set i | 0 <= i < |copies| :: copies[i].reference;
    assert additions[..0] == [];
    for i := 0 to |additions|
      invariant forall x :: x in references <==> HasReference(r, x)
      invariant r == AppendNew(copies, additions[..i])
    {
      if additions[i].reference !in references {
        assert (r + [additions[i]])[|r|] == additions[i];
        assert forall k :: 0 <= k < |r| ==> (r + [additions[i]])[k] == r[k];
        r := r + [additions[i]];
        references := references + {additions[i].reference};
      }
      assert additions[..i + 1][..i] == additions[..i];
    }
    assert additions[..|additions|] == additions;
    AppendedEntries(copies, additions);
  }

  /** Appending keeps what was there, adds only new references, and loses none. */
  lemma {:induction false} AppendedEntries(copies: seq<Entry>, additions: seq<Entry>)
    ensures var r := AppendNew(copies, additions);
            && copies <= r
            && (UniqueReferences(copies) ==> UniqueReferences(r))
            && (forall e :: e in r ==> e in copies || e in additions)
            && (forall i :: 0 <= i < |additions| ==> HasReference(r, additions[i].reference))
  {
    if additions != [] {
      var n := |additions| - 1;
      var before := AppendNew(copies, additions[..n]);
      AppendedEntries(copies, additions[..n]);
      var r := AppendOne(before, additions[n]);
      assert before <= r;
      forall i | 0 <= i <= n ensures HasReference(r, additions[i].reference) {
        if i < n {
          assert HasReference(before, additions[..n][i].reference);
          var k :| 0 <= k < |before| && before[k].reference == additions[i].reference;
          assert r[k] == before[k];
        } else if !HasReference(before, additions[n].reference) {
          assert r[|before|] == additions[n];
        }
      }
    }
  }

  /** Removing keeps exactly the entries with another reference. */
  lemma {:induction false} WithoutEntries(copies: seq<Entry>, reference: string)
    ensures var r := Without(copies, reference);
            && (forall e :: e in r <==> e in copies && e.reference != reference)
            && (UniqueReferences(copies) ==> UniqueReferences(r))
            && !HasReference(r, reference)
  {
    if copies != [] {
      var n := |copies| - 1;
      WithoutEntries(copies[..n], reference);
      assert copies == copies[..n] + [copies[n]];
      var kept := Without(copies[..n], reference);
      if UniqueReferences(copies) && copies[n].reference != reference {
        forall i | 0 <= i < |kept| ensures kept[i].reference != copies[n].reference {
          assert kept[i] in copies[..n];
        }
      }
    }
  }

  /** Ids listed after an append, when references and ids correspond. */
  ghost predicate SnapshotEntry(e: Entry) {
    e.snapshotId != "" && e.reference == Reference(e.snapshotId)
  }

  ghost predicate SnapshotEntries(copies: seq<Entry>) {
    forall i :: 0 <= i < |copies| ==> SnapshotEntry(copies[i])
  }

  lemma {:induction false} AppendedIds(copies: seq<Entry>, additions: seq<Entry>)
    requires SnapshotEntries(copies) && SnapshotEntries(additions)
    ensures SnapshotEntries(AppendNew(copies, additions))
    ensures ListedIds(AppendNew(copies, additions)) == ListedIds(copies) + ListedIds(additions)
  {
    var r := AppendNew(copies, additions);
    AppendedEntries(copies, additions);
    forall i | 0 <= i < |r| ensures SnapshotEntry(r[i]) { assert r[i] in r; }
    forall id | id in ListedIds(r) ensures id in ListedIds(copies) + ListedIds(additions) {
      var i :| 0 <= i < |r| && r[i].snapshotId != "" && r[i].snapshotId == id;
      assert r[i] in copies || r[i] in additions;
    }
    forall id | id in ListedIds(copies) ensures id in ListedIds(r) {
      var i :| 0 <= i < |copies| && copies[i].snapshotId != "" && copies[i].snapshotId == id;
      assert r[i] == copies[i];
    }
    forall id | id in ListedIds(additions) ensures id in ListedIds(r) {
      var i :| 0 <= i < |additions| && additions[i].snapshotId != "" && additions[i].snapshotId == id;
      var k :| 0 <= k < |r| && r[k].reference == additions[i].reference;
      ReferenceInjective(r[k].snapshotId, id);
    }
  }

  lemma {:induction false} WithoutIds(copies: seq<Entry>, id: SnapshotId)
    requires SnapshotEntries(copies)
    ensures SnapshotEntries(Without(copies, Reference(id)))
    ensures ListedIds(Without(copies, Reference(id))) == ListedIds(copies) - {id}
  {
    var r := Without(copies, Reference(id));
    WithoutEntries(copies, Reference(id));
    forall i | 0 <= i < |r| ensures SnapshotEntry(r[i]) && r[i].snapshotId in ListedIds(copies) - {id} {
      assert r[i] in copies;
      ReferenceInjective(r[i].snapshotId, id);
    }
    forall other | other in ListedIds(copies) - {id} ensures other in ListedIds(r) {
      var i :| 0 <= i < |copies| && copies[i].snapshotId != "" && copies[i].snapshotId == other;
      ReferenceInjective(other, id);
      assert copies[i] in r;
    }
  }
}
