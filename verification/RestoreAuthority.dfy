/**
 `_validate_authority_document` of scripts/restore-core-gate.py: turning an exported
 removal ledger into its canonical form.

 Field-level checks that look at one value only (non-empty strings, timestamps, booleans)
 are the `wellFormed` flags; every check that relates values is modelled.  SHA-256 over
 canonical JSON is taken to be injective, so a ledger head is represented by what it hashes.
 */
module RestoreAuthority {
  import opened Wrappers
  import opened ControlledCopies
  import opened Ordering
  import opened Sequences
  import S = RestoreSanitation

  // ---- The exported document

  /** One removal authority.  `progress` and `targets` may change over its life; the other
      fields are immutable. */
  datatype Record = Record(
    id: string,
    tenant: string,
    resourceType: string,
    resource: string,
    generation: string,
    epoch: int,
    details: string,
    wellFormed: bool,
    progress: string,
    targets: seq<S.Target>)

  datatype ImmutableRecord = ImmutableRecord(
    id: string, tenant: string, resourceType: string, resource: string, generation: string, epoch: int, details: string)

  datatype CopyMeta = CopyMeta(reference: string, createdAt: string, resource: string, generation: string)

  datatype StoreStatus = StoreStatus(store: Store, wellFormed: bool, references: seq<string>, copies: seq<CopyMeta>,
                                     rest: string)

  datatype InventoryEntry = InventoryEntry(authorityId: string, targets: seq<string>, stores: seq<StoreStatus>)

  datatype Evidence = Evidence(
    store: Store, wellFormed: bool, status: string, contentPresent: bool, references: seq<string>,
    copies: seq<CopyMeta>, rest: string)

  datatype Head = Head(tenant: string, epoch: int, authorities: seq<ImmutableRecord>, inventory: seq<InventoryEntry>)

  datatype Document = Document(
    version: int,
    tenant: string,
    epoch: int,
    authorities: seq<Record>,
    inventory: seq<InventoryEntry>,
    stores: seq<Evidence>,
    archiveComplete: bool,
    archive: string,
    authorityIds: Option<seq<string>>,
    authorityCount: Option<int>,
    ledgerHead: Option<Head>)

  /** The validated, normalized export. */
  datatype Export = Export(
    tenant: string,
    epoch: int,
    authorities: seq<Record>,
    stores: seq<Evidence>,
    archive: string,
    head: Head,
    inventory: seq<InventoryEntry>)

  const ALL_STORES: seq<Store> :=
    [ProjectionBackup, Synapse, BridgeDatabase, MediaStore, Queue, ResticSnapshot, SessionCredentials, AccountKeys]

  predicate Required(store: Store) {
    store != SessionCredentials && store != AccountKeys
  }

  function Immutable(r: Record): (i: ImmutableRecord) {
    ImmutableRecord(r.id, r.tenant, r.resourceType, r.resource, r.generation, r.epoch, r.details)
  }

  function Immutables(rs: seq<Record>): (r: seq<ImmutableRecord>) {
    seq(|rs|, i requires 0 <= i < |rs| => Immutable(rs[i]))
  }

  // ---- Authority records

  predicate ExactLineage(s: string) {
    s != "" && '*' !in s
  }

  predicate RecordOk(r: Record, tenant: string, epoch: int) {
    && r.id != "" && r.tenant == tenant && 1 <= r.epoch <= epoch && r.wellFormed
    && ExactLineage(r.resourceType) && ExactLineage(r.resource) && ExactLineage(r.generation)
  }

  datatype Key = Key(resourceType: string, resource: string, generation: string)

  function KeyOf(r: Record): Key {
    Key(r.resourceType, r.resource, r.generation)
  }

  /** Every record is valid, records with one id are identical, and one lineage has one id. */
  ghost predicate RecordsOk(rs: seq<Record>, tenant: string, epoch: int) {
    && (forall x :: x in rs ==> RecordOk(x, tenant, epoch))
    && (forall x, y :: x in rs && y in rs && x.id == y.id ==> x == y)
    && (forall x, y :: x in rs && y in rs && KeyOf(x) == KeyOf(y) ==> x.id == y.id)
  }

  predicate Before(a: Record, b: Record) {
    a.epoch < b.epoch || (a.epoch == b.epoch && StringLess(a.id, b.id))
  }

  lemma BeforeTransitive(a: Record, b: Record, c: Record)
    requires Before(a, b) && Before(b, c)
    ensures Before(a, c)
  {
    if a.epoch == b.epoch == c.epoch { LessTransitive(Codes(a.id), Codes(b.id), Codes(c.id)); }
  }

  lemma BeforeTotal(a: Record, b: Record)
    ensures a.id != b.id ==> Before(a, b) || Before(b, a)
    ensures !(Before(a, b) && Before(b, a)) && !Before(a, a)
  {
    StringLessTotal(a.id, b.id);
    StringLessTotal(a.id, a.id);
  }

  ghost predicate StrictlySorted(rs: seq<Record>) {
    forall i, j :: 0 <= i < j < |rs| ==> Before(rs[i], rs[j])
  }

  function Insert(r: Record, rs: seq<Record>): (out: seq<Record>)
    ensures multiset(out) == multiset(rs) + multiset{r}
  {
    if rs == [] then [r]
    else if Before(r, rs[0]) then [r] + rs
    else
      assert rs == [rs[0]] + rs[1..];
      [rs[0]] + Insert(r, rs[1..])
  }

  lemma {:induction false} InsertSorted(r: Record, rs: seq<Record>)
    requires StrictlySorted(rs) && forall i :: 0 <= i < |rs| ==> rs[i].id != r.id
    ensures StrictlySorted(Insert(r, rs))
  {
    if rs != [] {
      BeforeTotal(r, rs[0]);
      if Before(r, rs[0]) {
        forall j | 0 <= j < |rs| ensures Before(r, rs[j]) {
          if j > 0 { BeforeTransitive(r, rs[0], rs[j]); }
        }
      } else {
        InsertSorted(r, rs[1..]);
        var rest := Insert(r, rs[1..]);
        forall j | 0 <= j < |rest| ensures Before(rs[0], rest[j]) {
          assert rest[j] in multiset(rest);
          assert rest[j] == r || rest[j] in rs[1..];
        }
      }
    }
  }

  /** `authorities.sort` on (epoch, id). */
  function Sort(rs: seq<Record>): (out: seq<Record>)
    ensures multiset(out) == multiset(rs)
  {
    if rs == [] then []
    else
      assert rs == rs[..|rs| - 1] + [rs[|rs| - 1]];
      Insert(rs[|rs| - 1], Sort(rs[..|rs| - 1]))
  }

  lemma {:induction false} SortSorts(rs: seq<Record>)
    requires forall i, j :: 0 <= i < j < |rs| ==> rs[i].id != rs[j].id
    ensures StrictlySorted(Sort(rs)) && forall x :: x in Sort(rs) <==> x in rs
  {
    if rs != [] {
      var n := |rs| - 1;
      var rest := Sort(rs[..n]);
      SortSorts(rs[..n]);
      forall i | 0 <= i < |rest| ensures rest[i].id != rs[n].id { assert rest[i] in rs[..n]; }
      InsertSorted(rs[n], rest);
    }
    PermutationMembers(Sort(rs), rs);
  }

  /** A strictly sorted list is determined by its elements: the form is canonical. */
  lemma {:induction false} SortedUnique(a: seq<Record>, b: seq<Record>)
    requires StrictlySorted(a) && StrictlySorted(b)
    requires forall r :: r in a <==> r in b
    ensures a == b
  {
    BothEmpty(a, b);
    if a != [] {
      assert a[0] in b && b[0] in a;
      SameFirst(a, b);
      forall r ensures r in a[1..] <==> r in b[1..] {
        RestMembers(a, r);
        RestMembers(b, r);
      }
      SortedUnique(a[1..], b[1..]);
      assert a == [a[0]] + a[1..] && b == [b[0]] + b[1..];
    }
  }

  lemma BothEmpty(a: seq<Record>, b: seq<Record>)
    requires forall r :: r in a <==> r in b
    ensures a == [] <==> b == []
  {
    if a != [] { assert a[0] in b; }
    if b != [] { assert b[0] in a; }
  }

  lemma SameFirst(a: seq<Record>, b: seq<Record>)
    requires StrictlySorted(a) && StrictlySorted(b) && a != [] && b != [] && a[0] in b && b[0] in a
    ensures a[0] == b[0]
  {
    var i :| 0 <= i < |b| && b[i] == a[0];
    var j :| 0 <= j < |a| && a[j] == b[0];
    BeforeTotal(a[0], b[0]);
  }

  lemma RestMembers(a: seq<Record>, r: Record)
    requires StrictlySorted(a) && a != []
    ensures r in a[1..] <==> r in a && r != a[0]
  {
    BeforeTotal(a[0], a[0]);
    if r in a && r != a[0] {
      var i :| 0 <= i < |a| && a[i] == r;
      assert a[1..][i - 1] == r;
    }
  }

  /** The first occurrence of each record. */
  function FirstOccurrences(rs: seq<Record>): (out: seq<Record>) {
    if rs == [] then []
    else
      var kept, last := FirstOccurrences(rs[..|rs| - 1]), rs[|rs| - 1];
      if last in rs[..|rs| - 1] then kept else kept + [last]
  }

  function Canonical(rs: seq<Record>): (out: seq<Record>) {
    Sort(FirstOccurrences(rs))
  }

  lemma {:induction false} FirstOccurrencesMembers(rs: seq<Record>)
    ensures forall x :: x in FirstOccurrences(rs) <==> x in rs
    ensures Distinct(FirstOccurrences(rs))
  {
    if rs != [] {
      var n := |rs| - 1;
      FirstOccurrencesMembers(rs[..n]);
      assert rs == rs[..n] + [rs[n]];
    }
  }

  /** Accepted records in canonical form: strictly sorted by epoch then id, each record once,
      ids and lineages unique, epochs within the ledger's. */
  lemma CanonicalForm(rs: seq<Record>, tenant: string, epoch: int)
    requires RecordsOk(rs, tenant, epoch)
    ensures var c := Canonical(rs);
            && StrictlySorted(c)
            && (forall x :: x in c <==> x in rs)
            && (forall i, j :: 0 <= i < j < |c| ==> c[i].id != c[j].id && KeyOf(c[i]) != KeyOf(c[j]))
            && (forall i :: 0 <= i < |c| ==> 1 <= c[i].epoch <= epoch && c[i].tenant == tenant)
  {
    var kept := FirstOccurrences(rs);
    FirstOccurrencesMembers(rs);
    forall i, j | 0 <= i < j < |kept| ensures kept[i].id != kept[j].id {
      assert kept[i] in rs && kept[j] in rs;
    }
    SortSorts(kept);
    var c := Sort(kept);
    forall i, j | 0 <= i < j < |c| ensures c[i].id != c[j].id && KeyOf(c[i]) != KeyOf(c[j]) {
      assert c[i] in rs && c[j] in rs && Before(c[i], c[j]);
      BeforeTotal(c[i], c[j]);
    }
    forall i | 0 <= i < |c| ensures 1 <= c[i].epoch <= epoch && c[i].tenant == tenant { assert c[i] in rs; }
  }

  /** Reordering or repeating records changes neither acceptance nor the canonical form. */
  lemma RecordOrderIrrelevant(a: seq<Record>, b: seq<Record>, tenant: string, epoch: int)
    requires forall x :: x in a <==> x in b
    ensures RecordsOk(a, tenant, epoch) <==> RecordsOk(b, tenant, epoch)
    ensures RecordsOk(a, tenant, epoch) ==> Canonical(a) == Canonical(b)
  {
    if RecordsOk(a, tenant, epoch) {
      SameRecords(a, b, tenant, epoch);
      CanonicalForm(a, tenant, epoch);
      CanonicalForm(b, tenant, epoch);
      SortedUnique(Canonical(a), Canonical(b));
    }
    if RecordsOk(b, tenant, epoch) { SameRecords(b, a, tenant, epoch); }
  }

  /** `byId` and `byKey` index exactly the records seen so far. */
  ghost predicate Indexed(rs: seq<Record>, byId: map<string, Record>, byKey: map<Key, Record>) {
    && (forall x :: x in rs ==> x.id in byId && byId[x.id] == x)
    && (forall id :: id in byId ==> byId[id] in rs && byId[id].id == id)
    && (forall x :: x in rs ==> KeyOf(x) in byKey)
    && (forall k :: k in byKey ==> byKey[k] in rs && KeyOf(byKey[k]) == k)
  }

  lemma IndexedNext(rs: seq<Record>, r: Record, byId: map<string, Record>, byKey: map<Key, Record>)
    requires Indexed(rs, byId, byKey) && r.id !in byId && KeyOf(r) !in byKey
    ensures Indexed(rs + [r], byId[r.id := r], byKey[KeyOf(r) := r])
  {
    assert forall x :: x in rs + [r] <==> x in rs || x == r;
  }

  lemma IndexedAgain(rs: seq<Record>, r: Record, byId: map<string, Record>, byKey: map<Key, Record>)
    requires Indexed(rs, byId, byKey) && r in rs
    ensures Indexed(rs + [r], byId, byKey)
  {
    assert forall x :: x in rs + [r] <==> x in rs;
  }

  /** The record loop with its `by_id` and `by_key` indexes, then the sort. */
  method ValidateRecords(raw: seq<Record>, tenant: string, epoch: int) returns (r: Result<seq<Record>>)
    ensures r.Ok? <==> RecordsOk(raw, tenant, epoch)
    ensures r.Ok? ==> r.value == Canonical(raw)
  {
    var kept: seq<Record> := [];
    var byId: map<string, Record> := map[];
    var byKey: map<Key, Record> := map[];
    for i := 0 to |raw|
      invariant RecordsOk(raw[..i], tenant, epoch)
      invariant kept == FirstOccurrences(raw[..i])
      invariant Indexed(raw[..i], byId, byKey)
    {
      var record := raw[i];
      assert raw[..i + 1] == raw[..i] + [record];
      assert raw[..i + 1][..i] == raw[..i];
      assert record in raw && FirstOccurrences(raw[..i + 1]) == if record in raw[..i] then kept else kept + [record];
      if record.id == "" { return Refused("authority id is required"); }
      if record.id in byId {
        if byId[record.id] != record {
          ConflictingPair(raw, i, byId[record.id], tenant, epoch);
          return Refused("authority id has conflicting records");
        }
        SameRecords(raw[..i], raw[..i] + [record], tenant, epoch);
        IndexedAgain(raw[..i], record, byId, byKey);
      } else {
        if !RecordOk(record, tenant, epoch) { return Refused("authority record is invalid"); }
        if KeyOf(record) in byKey {
          ConflictingPair(raw, i, byKey[KeyOf(record)], tenant, epoch);
          return Refused("conflicting duplicate tombstones");
        }
        NewRecord(raw[..i], record, tenant, epoch);
        IndexedNext(raw[..i], record, byId, byKey);
        kept := kept + [record];
        byId := byId[record.id := record];
        byKey := byKey[KeyOf(record) := record];
      }
    }
    assert raw[..|raw|] == raw;
    return Ok(Sort(kept));
  }

  lemma ConflictingPair(raw: seq<Record>, i: nat, other: Record, tenant: string, epoch: int)
    requires i < |raw| && other in raw[..i]
    requires (other.id == raw[i].id && other != raw[i]) || (KeyOf(other) == KeyOf(raw[i]) && other.id != raw[i].id)
    ensures !RecordsOk(raw, tenant, epoch)
  {
    assert other in raw && raw[i] in raw;
  }

  /** Acceptance depends only on which records occur, not on their order or repetition. */
  lemma SameRecords(a: seq<Record>, b: seq<Record>, tenant: string, epoch: int)
    requires RecordsOk(a, tenant, epoch)
    requires forall x :: x in b ==> x in a
    ensures RecordsOk(b, tenant, epoch)
  {
  }

  lemma NewRecord(rs: seq<Record>, r: Record, tenant: string, epoch: int)
    requires RecordsOk(rs, tenant, epoch) && RecordOk(r, tenant, epoch)
    requires forall x :: x in rs ==> x.id != r.id && KeyOf(x) != KeyOf(r)
    ensures RecordsOk(rs + [r], tenant, epoch)
  {
    assert forall x :: x in rs + [r] <==> x in rs || x == r;
  }

  // ---- Store inventory

  ghost predicate StatusOk(s: StoreStatus) {
    s.wellFormed && SameReferences(s.references, s.copies)
  }

  /** The references are exactly those of the copies. */
  predicate SameReferences(references: seq<string>, copies: seq<CopyMeta>) {
    (set r | r in references) == CopyReferences(copies)
  }

  function CopyReferences(copies: seq<CopyMeta>): (r: set<string>) {
    set i | 0 <= i < |copies| :: copies[i].reference
  }

  /** One valid status for each of the stores. */
  ghost predicate StatusesOk(ss: seq<StoreStatus>) {
    && (forall i :: 0 <= i < |ss| ==> StatusOk(ss[i]))
    && (forall i, j :: 0 <= i < j < |ss| ==> ss[i].store != ss[j].store)
    && (forall store: Store :: HasStatus(ss, store))
  }

  predicate HasStatus(ss: seq<StoreStatus>, store: Store) {
    exists i :: 0 <= i < |ss| && ss[i].store == store
  }

  /** `next(entry for entry in statuses if entry["store"] == store)` */
  function StatusOf(ss: seq<StoreStatus>, store: Store): (s: StoreStatus)
    requires HasStatus(ss, store)
    ensures s in ss && s.store == store
  {
    if ss[0].store == store then ss[0] else StatusOf(ss[1..], store)
  }

  /** The entry with its statuses in the fixed store order. */
  function NormalizeEntry(e: InventoryEntry): (r: InventoryEntry)
    requires forall store: Store :: HasStatus(e.stores, store)
  {
    e.(stores := seq(|ALL_STORES|, i requires 0 <= i < |ALL_STORES| => StatusOf(e.stores, ALL_STORES[i])))
  }

  /** Ids that must each have one inventory entry; an empty ledger is bound to its tenant. */
  function InventoryIds(authorities: seq<Record>, tenant: string): (ids: seq<string>) {
    if authorities == [] then [tenant] else seq(|authorities|, i requires 0 <= i < |authorities| => authorities[i].id)
  }

  ghost predicate InventoryOk(raw: seq<InventoryEntry>, ids: seq<string>) {
    && (forall i :: 0 <= i < |raw| ==> raw[i].authorityId in ids && StatusesOk(raw[i].stores))
    && (forall i, j :: 0 <= i < j < |raw| ==> raw[i].authorityId != raw[j].authorityId)
    && (forall id :: id in ids ==> exists i :: 0 <= i < |raw| && raw[i].authorityId == id)
  }

  ghost function EntryOf(raw: seq<InventoryEntry>, id: string): (e: InventoryEntry)
    requires exists i :: 0 <= i < |raw| && raw[i].authorityId == id
    ensures e in raw && e.authorityId == id
  {
    if raw[0].authorityId == id then raw[0] else EntryOf(raw[1..], id)
  }

  /** The inventory in the order of the sorted authorities. */
  ghost function NormalizeInventory(raw: seq<InventoryEntry>, ids: seq<string>): (r: seq<InventoryEntry>)
    requires InventoryOk(raw, ids)
  {
    seq(|ids|, i requires 0 <= i < |ids| =>
      assert ids[i] in ids;
      var e := EntryOf(raw, ids[i]);
      NormalizeEntry(e))
  }

  lemma EntryOfUnique(raw: seq<InventoryEntry>, ids: seq<string>, e: InventoryEntry)
    requires InventoryOk(raw, ids) && e in raw
    ensures EntryOf(raw, e.authorityId) == e
  {
    var i :| 0 <= i < |raw| && raw[i] == e;
    var f := EntryOf(raw, e.authorityId);
    var j :| 0 <= j < |raw| && raw[j] == f;
  }

  /** Permuting the inventory entries changes neither acceptance nor the result. */
  lemma InventoryOrderIrrelevant(a: seq<InventoryEntry>, b: seq<InventoryEntry>, ids: seq<string>)
    requires multiset(a) == multiset(b)
    ensures InventoryOk(a, ids) <==> InventoryOk(b, ids)
    ensures InventoryOk(a, ids) ==> NormalizeInventory(a, ids) == NormalizeInventory(b, ids)
  {
    if InventoryOk(a, ids) { InventoryPermuted(a, b, ids); }
    if InventoryOk(b, ids) { InventoryPermuted(b, a, ids); }
    PermutationMembers(a, b);
    if InventoryOk(a, ids) {
      forall i | 0 <= i < |ids| ensures NormalizeInventory(a, ids)[i] == NormalizeInventory(b, ids)[i] {
        assert ids[i] in ids;
        EntryOfUnique(b, ids, EntryOf(a, ids[i]));
      }
    }
  }

  lemma InventoryPermuted(a: seq<InventoryEntry>, b: seq<InventoryEntry>, ids: seq<string>)
    requires multiset(a) == multiset(b) && InventoryOk(a, ids)
    ensures InventoryOk(b, ids)
  {
    PermutationMembers(a, b);
    DistinctPermuted(a, b);
    forall i | 0 <= i < |b| ensures b[i].authorityId in ids && StatusesOk(b[i].stores) { assert b[i] in a; }
    forall i, j | 0 <= i < j < |b| ensures b[i].authorityId != b[j].authorityId {
      assert b[i] in a && b[j] in a && b[i] != b[j];
      var k :| 0 <= k < |a| && a[k] == b[i];
      var l :| 0 <= l < |a| && a[l] == b[j];
      assert k != l;
    }
    forall id | id in ids ensures exists i :: 0 <= i < |b| && b[i].authorityId == id {
      var k :| 0 <= k < |a| && a[k].authorityId == id;
      assert a[k] in b;
    }
  }

  /** The loop over one entry's store statuses. */
  method ValidateStatuses(ss: seq<StoreStatus>) returns (ok: bool)
    ensures ok <==> StatusesOk(ss)
  {
    var seen: set<Store> := {};
    for i := 0 to |ss|
      invariant forall j :: 0 <= j < i ==> StatusOk(ss[j])
      invariant forall j, k :: 0 <= j < k < i ==> ss[j].store != ss[k].store
      invariant forall store :: store in seen <==> exists j :: 0 <= j < i && ss[j].store == store
    {
      if ss[i].store in seen { return false; }
      if !ss[i].wellFormed || !SameReferences(ss[i].references, ss[i].copies) { return false; }
      seen := seen + {ss[i].store};
    }
    if exists i :: 0 <= i < |ALL_STORES| && ALL_STORES[i] !in seen {
      ghost var i :| 0 <= i < |ALL_STORES| && ALL_STORES[i] !in seen;
      assert !HasStatus(ss, ALL_STORES[i]);
      return false;
    }
    forall store: Store ensures HasStatus(ss, store) {
      StoreListed(store);
    }
    return true;
  }

  lemma StoreListed(store: Store)
    ensures exists i :: 0 <= i < |ALL_STORES| && ALL_STORES[i] == store
  {
    assert ALL_STORES[0] == ProjectionBackup && ALL_STORES[1] == Synapse && ALL_STORES[2] == BridgeDatabase;
    assert ALL_STORES[3] == MediaStore && ALL_STORES[4] == Queue && ALL_STORES[5] == ResticSnapshot;
    assert ALL_STORES[6] == SessionCredentials && ALL_STORES[7] == AccountKeys;
  }

  /** `byAuthority` holds the normalized form of the entries seen so far. */
  ghost predicate IndexedEntries(raw: seq<InventoryEntry>, ids: seq<string>, byAuthority: map<string, InventoryEntry>) {
    && (forall i :: 0 <= i < |raw| ==>
          && raw[i].authorityId in ids && StatusesOk(raw[i].stores)
          && raw[i].authorityId in byAuthority && byAuthority[raw[i].authorityId] == NormalizeEntry(raw[i]))
    && (forall i, j :: 0 <= i < j < |raw| ==> raw[i].authorityId != raw[j].authorityId)
    && (forall id :: id in byAuthority ==> exists i :: 0 <= i < |raw| && raw[i].authorityId == id)
  }

  lemma IndexedEntriesNext(raw: seq<InventoryEntry>, e: InventoryEntry, ids: seq<string>,
                           byAuthority: map<string, InventoryEntry>)
    requires IndexedEntries(raw, ids, byAuthority)
    requires e.authorityId in ids && e.authorityId !in byAuthority && StatusesOk(e.stores)
    ensures IndexedEntries(raw + [e], ids, byAuthority[e.authorityId := NormalizeEntry(e)])
  {
    var next := raw + [e];
    var index := byAuthority[e.authorityId := NormalizeEntry(e)];
    assert next[|raw|] == e;
    forall id | id in index ensures exists i :: 0 <= i < |next| && next[i].authorityId == id {
      if id != e.authorityId {
        var i :| 0 <= i < |raw| && raw[i].authorityId == id;
        assert next[i] == raw[i];
      }
    }
  }

  lemma IndexedInventory(raw: seq<InventoryEntry>, ids: seq<string>, byAuthority: map<string, InventoryEntry>)
    requires IndexedEntries(raw, ids, byAuthority)
    ensures InventoryOk(raw, ids) <==> forall id :: id in ids ==> id in byAuthority
    ensures InventoryOk(raw, ids) ==>
              forall i :: 0 <= i < |ids| ==>
                  ids[i] in byAuthority && byAuthority[ids[i]] == NormalizeInventory(raw, ids)[i]
  {
    if InventoryOk(raw, ids) {
      forall i | 0 <= i < |ids|
        ensures ids[i] in byAuthority && byAuthority[ids[i]] == NormalizeInventory(raw, ids)[i]
      {
        assert ids[i] in ids;
        var j :| 0 <= j < |raw| && raw[j].authorityId == ids[i];
        EntryOfUnique(raw, ids, raw[j]);
      }
    }
  }

  lemma RefusedEntry(raw: seq<InventoryEntry>, i: nat, ids: seq<string>, byAuthority: map<string, InventoryEntry>)
    requires i < |raw| && IndexedEntries(raw[..i], ids, byAuthority)
    requires raw[i].authorityId !in ids || raw[i].authorityId in byAuthority || !StatusesOk(raw[i].stores)
    ensures !InventoryOk(raw, ids)
  {
    if raw[i].authorityId in byAuthority {
      var j :| 0 <= j < i && raw[..i][j].authorityId == raw[i].authorityId;
      assert raw[j].authorityId == raw[i].authorityId;
    }
  }

  /** The inventory loop with its `by_authority` index. */
  method IndexEntries(raw: seq<InventoryEntry>, ids: seq<string>)
    returns (ok: bool, byAuthority: map<string, InventoryEntry>)
    ensures ok ==> IndexedEntries(raw, ids, byAuthority)
    ensures !ok ==> !InventoryOk(raw, ids)
  {
    byAuthority := map[];
    for i := 0 to |raw|
      invariant IndexedEntries(raw[..i], ids, byAuthority)
    {
      var e := raw[i];
      var complete := ValidateStatuses(e.stores);
      if e.authorityId !in ids || e.authorityId in byAuthority || !complete {
        RefusedEntry(raw, i, ids, byAuthority);
        return false, byAuthority;
      }
      IndexedEntriesNext(raw[..i], e, ids, byAuthority);
      assert raw[..i + 1] == raw[..i] + [e];
      byAuthority := byAuthority[e.authorityId := NormalizeEntry(e)];
    }
    assert raw[..|raw|] == raw;
    return true, byAuthority;
  }

  method ValidateInventory(raw: seq<InventoryEntry>, ids: seq<string>) returns (r: Result<seq<InventoryEntry>>)
    ensures r.Ok? <==> InventoryOk(raw, ids)
    ensures r.Ok? ==> r.value == NormalizeInventory(raw, ids)
  {
    var ok, byAuthority := IndexEntries(raw, ids);
    if !ok { return Refused("inventory entry is duplicated, unknown or incomplete"); }
    IndexedInventory(raw, ids, byAuthority);
    if exists id :: id in ids && id !in byAuthority { return Refused("inventory is incomplete"); }
    return Ok(seq(|ids|, i requires 0 <= i < |ids| => byAuthority[ids[i]]));
  }

  // ---- Controlled-store evidence

  predicate EvidenceItemOk(e: Evidence) {
    && e.wellFormed && SameReferences(e.references, e.copies) && e.references != []
    && if Required(e.store) then e.status == "complete" && !e.contentPresent
       else e.status == "preserved" && e.contentPresent
  }

  predicate HasEvidence(es: seq<Evidence>, store: Store) {
    exists i :: 0 <= i < |es| && es[i].store == store
  }

  predicate EvidenceOk(es: seq<Evidence>) {
    && (forall i :: 0 <= i < |es| ==> EvidenceItemOk(es[i]))
    && (forall i, j :: 0 <= i < j < |es| ==> es[i].store != es[j].store)
    && (forall i :: 0 <= i < |ALL_STORES| ==> HasEvidence(es, ALL_STORES[i]))
  }

  function InventoryCopies(inventory: seq<InventoryEntry>, store: Store): (r: seq<CopyMeta>)
    requires forall i :: 0 <= i < |inventory| ==> HasStatus(inventory[i].stores, store)
  {
    if inventory == [] then []
    else
      InventoryCopies(inventory[..|inventory| - 1], store) + StatusOf(inventory[|inventory| - 1].stores, store).copies
  }

  /** For each store the inventory and the evidence describe the same copies. */
  predicate CopiesMatch(inventory: seq<InventoryEntry>, es: seq<Evidence>)
    requires forall i, store: Store :: 0 <= i < |inventory| ==> HasStatus(inventory[i].stores, store)
  {
    forall i :: 0 <= i < |es| ==> multiset(InventoryCopies(inventory, es[i].store)) == multiset(es[i].copies)
  }

  lemma NormalizedHasAll(raw: seq<InventoryEntry>, ids: seq<string>)
    requires InventoryOk(raw, ids)
    ensures var inventory := NormalizeInventory(raw, ids);
            forall i, store: Store :: 0 <= i < |inventory| ==> HasStatus(inventory[i].stores, store)
  {
    var inventory := NormalizeInventory(raw, ids);
    forall i, store: Store | 0 <= i < |inventory| ensures HasStatus(inventory[i].stores, store) {
      StoreListed(store);
      var k :| 0 <= k < |ALL_STORES| && ALL_STORES[k] == store;
      assert ids[i] in ids;
      assert inventory[i].stores[k].store == store;
    }
  }

  /** What makes records acceptable: each is complete, of this tenant and ledger epoch, and states an
      exact lineage; one id has one record, and one lineage one id. */
  lemma RecordsOkIff(rs: seq<Record>, tenant: string, epoch: int)
    ensures RecordsOk(rs, tenant, epoch) <==>
            && (forall x :: x in rs ==>
                  && x.wellFormed && x.id != "" && x.tenant == tenant && 0 < x.epoch && x.epoch <= epoch
                  && x.resourceType != "" && x.resource != "" && x.generation != ""
                  && '*' !in x.resourceType && '*' !in x.resource && '*' !in x.generation)
            && (forall x, y :: x in rs && y in rs && x.id == y.id ==> x == y)
            && (forall x, y :: x in rs && y in rs && x.resourceType == y.resourceType ==>
                  x.resource == y.resource && x.generation == y.generation ==> x.id == y.id)
  {
  }

  /** The references are those of the copies. */
  ghost predicate Referenced(references: seq<string>, copies: seq<CopyMeta>) {
    forall r :: r in references <==> exists c :: c in copies && c.reference == r
  }

  lemma SameReferencesIff(references: seq<string>, copies: seq<CopyMeta>)
    ensures SameReferences(references, copies) <==> Referenced(references, copies)
  {
    forall r ensures r in CopyReferences(copies) <==> exists c :: c in copies && c.reference == r {
      if c :| c in copies && c.reference == r { var i :| 0 <= i < |copies| && copies[i] == c; }
      if r in CopyReferences(copies) {
        var i :| 0 <= i < |copies| && copies[i].reference == r;
        assert copies[i] in copies;
      }
    }
    if SameReferences(references, copies) {
      forall r ensures r in references <==> r in CopyReferences(copies) {
        assert r in (set x | x in references) <==> r in references;
      }
    }
  }

  /** One item of store evidence: complete and referenced; preserved with its content in a protected
      store, complete without content in the others. */
  ghost predicate SoundEvidence(e: Evidence) {
    && e.wellFormed && e.references != [] && Referenced(e.references, e.copies)
    && if e.store == SessionCredentials || e.store == AccountKeys then e.status == "preserved" && e.contentPresent
       else e.status == "complete" && !e.contentPresent
  }

  /** Store evidence is acceptable exactly when each store has one item and each item is sound. */
  lemma EvidenceOkIff(es: seq<Evidence>)
    ensures EvidenceOk(es) <==>
            (forall store: Store :: OneItem(es, store)) && forall i :: 0 <= i < |es| ==> SoundEvidence(es[i])
  {
    forall i | 0 <= i < |es| ensures EvidenceItemOk(es[i]) <==> SoundEvidence(es[i]) {
      SameReferencesIff(es[i].references, es[i].copies);
    }
    if EvidenceOk(es) {
      forall store: Store ensures OneItem(es, store) {
        StoreListed(store);
        var k :| 0 <= k < |ALL_STORES| && ALL_STORES[k] == store;
        assert HasEvidence(es, store);
      }
    }
    if forall store: Store :: OneItem(es, store) {
      forall i, j | 0 <= i < j < |es| ensures es[i].store != es[j].store { assert OneItem(es, es[i].store); }
      forall k | 0 <= k < |ALL_STORES| ensures HasEvidence(es, ALL_STORES[k]) { assert OneItem(es, ALL_STORES[k]); }
    }
  }

  ghost predicate OneItem(es: seq<Evidence>, store: Store) {
    exists i :: 0 <= i < |es| && es[i].store == store && forall j :: 0 <= j < |es| && es[j].store == store ==> j == i
  }

  /** How often the inventory lists the copy in the store. */
  ghost function CopyCount(inventory: seq<InventoryEntry>, store: Store, c: CopyMeta): (n: nat)
    requires forall i :: 0 <= i < |inventory| ==> HasStatus(inventory[i].stores, store)
  {
    if inventory == [] then 0
    else multiset(StatusOf(inventory[0].stores, store).copies)[c] + CopyCount(inventory[1..], store, c)
  }

  lemma {:induction false} InventoryCopiesCount(inventory: seq<InventoryEntry>, store: Store, c: CopyMeta)
    requires forall i :: 0 <= i < |inventory| ==> HasStatus(inventory[i].stores, store)
    ensures multiset(InventoryCopies(inventory, store))[c] == CopyCount(inventory, store, c)
  {
    if inventory != [] {
      var n := |inventory| - 1;
      InventoryCopiesCount(inventory[..n], store, c);
      CopyCountLast(inventory, store, c);
    }
  }

  lemma {:induction false} CopyCountLast(inventory: seq<InventoryEntry>, store: Store, c: CopyMeta)
    requires inventory != [] && forall i :: 0 <= i < |inventory| ==> HasStatus(inventory[i].stores, store)
    ensures var n := |inventory| - 1;
            CopyCount(inventory, store, c) ==
            CopyCount(inventory[..n], store, c) + multiset(StatusOf(inventory[n].stores, store).copies)[c]
  {
    var n := |inventory| - 1;
    if n > 0 {
      CopyCountLast(inventory[1..], store, c);
      assert inventory[1..][..n - 1] == inventory[..n][1..];
    }
  }

  /** The evidence of each store describes every copy as often as the inventory lists it there. */
  lemma CopiesMatchIff(inventory: seq<InventoryEntry>, es: seq<Evidence>)
    requires forall i, store: Store :: 0 <= i < |inventory| ==> HasStatus(inventory[i].stores, store)
    ensures CopiesMatch(inventory, es) <==>
            forall i, c :: 0 <= i < |es| ==> multiset(es[i].copies)[c] == CopyCount(inventory, es[i].store, c)
  {
    forall i, c | 0 <= i < |es|
      ensures multiset(InventoryCopies(inventory, es[i].store))[c] == CopyCount(inventory, es[i].store, c)
    {
      InventoryCopiesCount(inventory, es[i].store, c);
    }
    if forall i, c :: 0 <= i < |es| ==> multiset(es[i].copies)[c] == CopyCount(inventory, es[i].store, c) {
      forall i | 0 <= i < |es| ensures multiset(InventoryCopies(inventory, es[i].store)) == multiset(es[i].copies) {
        forall c ensures multiset(InventoryCopies(inventory, es[i].store))[c] == multiset(es[i].copies)[c] {
        }
      }
    }
  }

  // ---- The document

  function Ids(rs: seq<Record>): (r: seq<string>) {
    seq(|rs|, i requires 0 <= i < |rs| => rs[i].id)
  }

  ghost predicate LedgerOk(d: Document) {
    && d.version == 1 && d.tenant != "" && d.epoch >= 0
    && RecordsOk(d.authorities, d.tenant, d.epoch)
    && InventoryOk(d.inventory, InventoryIds(Canonical(d.authorities), d.tenant))
  }

  /** The canonical form of an acceptable document. */
  ghost function Normalize(d: Document): (x: Export)
    requires LedgerOk(d)
  {
    var authorities := Canonical(d.authorities);
    var inventory := NormalizeInventory(d.inventory, InventoryIds(authorities, d.tenant));
    Export(d.tenant, d.epoch, authorities, d.stores, d.archive,
           Head(d.tenant, d.epoch, Immutables(authorities), inventory), inventory)
  }

  ghost predicate DocumentOk(d: Document, tenant: string) {
    && d.tenant == tenant
    && LedgerOk(d)
    && EvidenceOk(d.stores)
    && EvidenceMatches(d)
    && d.archiveComplete
    && (d.authorityIds.Some? ==> d.authorityIds.value == Ids(Canonical(d.authorities)))
    && (d.authorityCount.Some? ==> d.authorityCount.value == |Canonical(d.authorities)|)
    && (d.ledgerHead.Some? ==> d.ledgerHead.value == Normalize(d).head)
  }

  ghost predicate EvidenceMatches(d: Document)
    requires LedgerOk(d)
  {
    NormalizedHasAll(d.inventory, InventoryIds(Canonical(d.authorities), d.tenant));
    CopiesMatch(Normalize(d).inventory, d.stores)
  }

  method ValidateDocument(d: Document, tenant: string) returns (r: Result<Export>)
    ensures r.Ok? <==> DocumentOk(d, tenant)
    ensures r.Ok? ==> r.value == Normalize(d)
  {
    if d.version != 1 { return Refused("version is unsupported"); }
    if d.tenant == "" || d.tenant != tenant { return Refused("tenant does not match restore target"); }
    if d.epoch < 0 { return Refused("deletion epoch is invalid"); }
    var records := ValidateRecords(d.authorities, d.tenant, d.epoch);
    if records.Refused? { return Refused(records.reason); }
    var authorities := records.value;
    var inventory := ValidateInventory(d.inventory, InventoryIds(authorities, d.tenant));
    if inventory.Refused? { return Refused(inventory.reason); }
    if !EvidenceOk(d.stores) { return Refused("controlled-store evidence is incomplete"); }
    NormalizedHasAll(d.inventory, InventoryIds(authorities, d.tenant));
    if !CopiesMatch(inventory.value, d.stores) { return Refused("status does not match inventory copies"); }
    if !d.archiveComplete { return Refused("archive evidence is incomplete"); }
    if d.authorityIds.Some? && d.authorityIds.value != Ids(authorities) {
      return Refused("authority ids do not match");
    }
    if d.authorityCount.Some? && d.authorityCount.value != |authorities| {
      return Refused("authority count does not match");
    }
    var head := Head(d.tenant, d.epoch, Immutables(authorities), inventory.value);
    if d.ledgerHead.Some? && d.ledgerHead.value != head { return Refused("ledger head does not match"); }
    return Ok(Export(d.tenant, d.epoch, authorities, d.stores, d.archive, head, inventory.value));
  }

  /** Canonical form: reordering or repeating authority records and permuting inventory
      entries changes neither acceptance nor anything in the export, its head included. */
  lemma CanonicalExport(d: Document, e: Document, tenant: string)
    requires e == d.(authorities := e.authorities, inventory := e.inventory)
    requires forall x :: x in d.authorities <==> x in e.authorities
    requires multiset(d.inventory) == multiset(e.inventory)
    ensures DocumentOk(d, tenant) <==> DocumentOk(e, tenant)
    ensures DocumentOk(d, tenant) ==> Normalize(d) == Normalize(e)
  {
    RecordOrderIrrelevant(d.authorities, e.authorities, d.tenant, d.epoch);
    InventoryOrderIrrelevant(d.inventory, e.inventory, InventoryIds(Canonical(d.authorities), d.tenant));
  }
}
