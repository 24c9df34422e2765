/**
 The restore gate as a protocol: load the removal ledger, sanitize a restored payload,
 re-read the ledger, write a report, and later activate under a lease
 (`run_payload_gate`, `verify_activation_report`, `acquire_activation_lease` and the
 activation branch of `main` in scripts/restore-core-gate.py).

 The ledger belongs to the environment, which may change it between any two steps of any
 number of restores; a restore may fail at every step.  Each restore works in its own fresh
 directory, so a report always lies beside the payload it was written for.
 */
module RestoreGate {
  import opened Wrappers
  import opened RestoreAuthority
  import S = RestoreSanitation

  // ---- Fingerprints and reports

  /** What `_authority_fingerprint` hashes; the hash is taken to be injective. */
  datatype Fingerprint = Fingerprint(
    tenant: string, epoch: int, ids: seq<string>, authorities: seq<ImmutableRecord>, head: Head,
    inventory: seq<InventoryEntry>, stores: seq<Evidence>, archive: string)

  function FingerprintOf(x: Export): (f: Fingerprint) {
    Fingerprint(x.tenant, x.epoch, Ids(x.authorities), Immutables(x.authorities), x.head, x.inventory, x.stores,
                x.archive)
  }

  datatype Report = Report(ready: bool, tenant: string, epoch: int, head: Head, fingerprint: Fingerprint)

  function ReportFor(x: Export): (r: Report) {
    Report(true, x.tenant, x.epoch, x.head, FingerprintOf(x))
  }

  /** Two records of one removal: everything but its progress and its located copies. */
  ghost predicate SameRemoval(r: Record, q: Record) {
    && r.id == q.id && r.tenant == q.tenant && r.resourceType == q.resourceType && r.resource == q.resource
    && r.generation == q.generation && r.epoch == q.epoch && r.details == q.details
  }

  /** Nothing the gate depends on has moved between two exports: neither the removals and the
      ledger head nor the inventory, the store evidence or the archive. */
  ghost predicate Unmoved(x: Export, y: Export) {
    && x.tenant == y.tenant && x.epoch == y.epoch && x.head == y.head
    && x.inventory == y.inventory && x.stores == y.stores && x.archive == y.archive
    && |x.authorities| == |y.authorities|
    && forall k :: 0 <= k < |x.authorities| ==> SameRemoval(x.authorities[k], y.authorities[k])
  }

  /** Equal fingerprints mean that nothing has moved, and nothing less does. */
  lemma FingerprintsEqualIff(x: Export, y: Export)
    ensures FingerprintOf(x) == FingerprintOf(y) <==> Unmoved(x, y)
  {
    if FingerprintOf(x) == FingerprintOf(y) {
      assert |Immutables(x.authorities)| == |Immutables(y.authorities)|;
      forall k | 0 <= k < |x.authorities| ensures SameRemoval(x.authorities[k], y.authorities[k]) {
        assert Immutables(x.authorities)[k] == Immutables(y.authorities)[k];
      }
    }
    if Unmoved(x, y) {
      assert Immutables(x.authorities) == Immutables(y.authorities);
      assert Ids(x.authorities) == Ids(y.authorities);
    }
  }

  /** The authorities as the sanitizer reads them. */
  function ToErase(x: Export): (r: seq<S.Authority>)
    ensures |r| == |x.authorities|
    ensures forall k :: 0 <= k < |r| ==>
              && r[k].id == x.authorities[k].id && r[k].resource == x.authorities[k].resource
              && r[k].generation == x.authorities[k].generation && r[k].targets == x.authorities[k].targets
  {
    seq(|x.authorities|, i requires 0 <= i < |x.authorities| =>
      S.Authority(x.authorities[i].id, x.authorities[i].resource, x.authorities[i].generation,
                  x.authorities[i].targets))
  }

  ghost function SanitizedBy(p: S.Payload, x: Export): (r: S.Payload) {
    S.Sanitized(p, S.BindAll(ToErase(x)))
  }

  method RunPayloadGate(p: S.Payload, x: Export, refreshed: Option<Export>) returns (r: Result<(S.Payload, Report)>)
    ensures r.Ok? <==>
            S.CanSanitize(p, ToErase(x)) && (refreshed.Some? ==> Unmoved(refreshed.value, x))
    ensures r.Ok? ==> r.value.0 == SanitizedBy(p, x)
    ensures r.Ok? ==> r.value.1.ready && forall y, tenant :: ReportMatches(r.value.1, y, tenant) <==>
                                                             tenant == x.tenant && Unmoved(x, y)
  {
    if refreshed.Some? { FingerprintsEqualIff(refreshed.value, x); }
    ReportMatchesIff(x);
    var sanitized := S.SanitizePayload(p, ToErase(x));
    if sanitized.Refused? { return Refused(sanitized.reason); }
    if refreshed.Some? && FingerprintOf(refreshed.value) != FingerprintOf(x) {
      return Refused("authority changed during sanitation; restart from a fresh snapshot");
    }
    return Ok((sanitized.value, ReportFor(x)));
  }

  /** `verify_activation_report`: the report is ready and matches the freshly fetched export. */
  predicate ReportMatches(r: Report, x: Export, tenant: string) {
    && r.ready && r.tenant == tenant && r.epoch == x.epoch && r.head == x.head
    && r.fingerprint == FingerprintOf(x)
  }

  /** The report matches exactly the exports in which nothing has moved. */
  lemma ReportMatchesIff(x: Export)
    ensures forall y, tenant :: ReportMatches(ReportFor(x), y, tenant) <==> tenant == x.tenant && Unmoved(x, y)
  {
    forall y, tenant ensures ReportMatches(ReportFor(x), y, tenant) <==> tenant == x.tenant && Unmoved(x, y) {
      FingerprintsEqualIff(x, y);
    }
  }

  /** A report is accepted only if it is ready and written for this tenant, epoch and head. */
  lemma ReportRefused(r: Report, y: Export, tenant: string)
    requires !r.ready || r.tenant != tenant || r.epoch != y.epoch || r.head != y.head
    ensures !ReportMatches(r, y, tenant)
  {
  }

  // ---- The protocol

  datatype Restore =
    | Restored(payload: S.Payload)
    | Loaded(payload: S.Payload, authority: Export)
    | Cleaned(original: S.Payload, payload: S.Payload, authority: Export)
    | Reported(original: S.Payload, payload: S.Payload, authority: Export, report: Report)
    | Verified(original: S.Payload, payload: S.Payload, authority: Export, report: Report, fetched: Export)
    | ActivationReady(original: S.Payload, payload: S.Payload, authority: Export, fetched: Export, atLease: Document)
    | Blocked

  datatype State = State(tenant: string, ledger: Document, restores: map<nat, Restore>)

  datatype Action =
    | ChangeLedger(ledger: Document)             // a removal or new store evidence
    | RestorePayload(id: nat, payload: S.Payload)
    | Load(id: nat)
    | Sanitize(id: nat)
    | ReportWithRefresh(id: nat)
    | ReportWithoutRefresh(id: nat)              // authority read from a file
    | VerifyReport(id: nat)
    | AcquireLease(id: nat)
    | Fail(id: nat)

  ghost predicate LedgerReadable(s: State) {
    DocumentOk(s.ledger, s.tenant)
  }

  ghost predicate Enabled(s: State, a: Action) {
    match a
    case ChangeLedger(_) => true
    case RestorePayload(id, _) => id !in s.restores
    case Load(id) => id in s.restores && s.restores[id].Restored? && LedgerReadable(s)
    case Sanitize(id) =>
      && id in s.restores && s.restores[id].Loaded?
      && S.CanSanitize(s.restores[id].payload, ToErase(s.restores[id].authority))
    case ReportWithRefresh(id) =>
      && id in s.restores && s.restores[id].Cleaned? && LedgerReadable(s)
      && FingerprintOf(Normalize(s.ledger)) == FingerprintOf(s.restores[id].authority)
    case ReportWithoutRefresh(id) => id in s.restores && s.restores[id].Cleaned?
    case VerifyReport(id) =>
      && id in s.restores && s.restores[id].Reported? && LedgerReadable(s)
      && ReportMatches(s.restores[id].report, Normalize(s.ledger), s.tenant)
    case AcquireLease(id) =>
      // The lease endpoint grants only against its current epoch and head, and the gate
      // checks that the reply repeats both.
      && id in s.restores && s.restores[id].Verified? && LedgerReadable(s)
      && s.restores[id].fetched.epoch == s.ledger.epoch
      && s.restores[id].fetched.head == Normalize(s.ledger).head
    case Fail(id) => id in s.restores && !s.restores[id].ActivationReady?
  }

  ghost function Apply(s: State, a: Action): (s': State)
    requires Enabled(s, a)
  {
    match a
    case ChangeLedger(ledger) => s.(ledger := ledger)
    case RestorePayload(id, payload) => s.(restores := s.restores[id := Restored(payload)])
    case Load(id) => s.(restores := s.restores[id := Loaded(s.restores[id].payload, Normalize(s.ledger))])
    case Sanitize(id) =>
      var Loaded(payload, authority) := s.restores[id];
      s.(restores := s.restores[id := Cleaned(payload, SanitizedBy(payload, authority), authority)])
    case ReportWithRefresh(id) =>
      var Cleaned(original, payload, authority) := s.restores[id];
      s.(restores := s.restores[id := Reported(original, payload, authority, ReportFor(authority))])
    case ReportWithoutRefresh(id) =>
      var Cleaned(original, payload, authority) := s.restores[id];
      s.(restores := s.restores[id := Reported(original, payload, authority, ReportFor(authority))])
    case VerifyReport(id) =>
      var Reported(original, payload, authority, report) := s.restores[id];
      s.(restores := s.restores[id := Verified(original, payload, authority, report, Normalize(s.ledger))])
    case AcquireLease(id) =>
      var Verified(original, payload, authority, _, fetched) := s.restores[id];
      s.(restores := s.restores[id := ActivationReady(original, payload, authority, fetched, s.ledger)])
    case Fail(id) => s.(restores := s.restores[id := Blocked])
  }

  /** When a report is written after the ledger was read again, and when it is accepted: nothing in
      the ledger has moved since it was loaded. */
  lemma LedgerUnmoved(s: State, id: nat)
    requires id in s.restores && LedgerReadable(s)
    ensures s.restores[id].Cleaned? ==>
              (Enabled(s, ReportWithRefresh(id)) <==> Unmoved(Normalize(s.ledger), s.restores[id].authority))
    ensures s.restores[id].Reported? && s.restores[id].report == ReportFor(s.restores[id].authority) ==>
              (Enabled(s, VerifyReport(id)) <==>
               s.tenant == s.restores[id].authority.tenant && Unmoved(s.restores[id].authority, Normalize(s.ledger)))
  {
    if s.restores[id].Cleaned? { FingerprintsEqualIff(Normalize(s.ledger), s.restores[id].authority); }
    if s.restores[id].Reported? { ReportMatchesIff(s.restores[id].authority); }
  }

  /** `payload` is `original` with everything the export removes erased. */
  ghost predicate CleanedBy(original: S.Payload, payload: S.Payload, x: Export) {
    HeadCovers(x) && S.CanSanitize(original, ToErase(x)) && payload == SanitizedBy(original, x)
  }

  /** The ledger head commits to the authority records. */
  ghost predicate HeadCovers(x: Export) {
    x.head.authorities == Immutables(x.authorities)
  }

  /** What is known about a restore at each stage. */
  ghost predicate RestoreOk(r: Restore, tenant: string) {
    match r
    case Restored(_) => true
    case Loaded(_, authority) => HeadCovers(authority)
    case Cleaned(original, payload, authority) => CleanedBy(original, payload, authority)
    case Reported(original, payload, authority, report) =>
      CleanedBy(original, payload, authority) && report == ReportFor(authority)
    case Verified(original, payload, authority, _, fetched) =>
      CleanedBy(original, payload, authority) && FingerprintOf(fetched) == FingerprintOf(authority)
    case ActivationReady(original, payload, authority, fetched, atLease) =>
      && CleanedBy(original, payload, authority) && FingerprintOf(fetched) == FingerprintOf(authority)
      && DocumentOk(atLease, tenant)
      && fetched.epoch == atLease.epoch && fetched.head == Normalize(atLease).head
    case Blocked => true
  }

  ghost predicate Invariant(s: State) {
    forall id :: id in s.restores ==> RestoreOk(s.restores[id], s.tenant)
  }

  lemma StepKeeps(s: State, a: Action)
    requires Invariant(s) && Enabled(s, a)
    ensures Invariant(Apply(s, a)) && Apply(s, a).tenant == s.tenant
  {
    var s' := Apply(s, a);
    forall id | id in s'.restores ensures RestoreOk(s'.restores[id], s'.tenant) {
      assert id in s.restores ==> RestoreOk(s.restores[id], s.tenant);
    }
  }

  ghost predicate IsRun(states: seq<State>, actions: seq<Action>) {
    && |states| == |actions| + 1
    && states[0].restores == map[]
    && forall i :: 0 <= i < |actions| ==>
         Enabled(states[i], actions[i]) && states[i + 1] == Apply(states[i], actions[i])
  }

  lemma {:induction false} RunKeeps(states: seq<State>, actions: seq<Action>, i: nat)
    requires IsRun(states, actions) && i < |states|
    ensures Invariant(states[i])
  {
    if i > 0 {
      RunKeeps(states, actions, i - 1);
      StepKeeps(states[i - 1], actions[i - 1]);
    }
  }

  /** The lineage of a removal and all the copies that were located for it are gone. */
  ghost predicate RemovalApplied(x: Export, payload: S.Payload, id: string, resource: string, generation: string) {
    exists k ::
      && 0 <= k < |x.authorities|
      && x.authorities[k].id == id && x.authorities[k].resource == resource && x.authorities[k].generation == generation
      && x.authorities[k].targets != []
      && forall i :: 0 <= i < |x.authorities[k].targets| ==> S.Erased(payload, x.authorities[k].targets[i])
  }

  lemma SameImmutables(x: Export, y: Export, k: nat)
    requires Immutables(x.authorities) == Immutables(y.authorities) && k < |x.authorities|
    ensures k < |y.authorities| && Immutable(x.authorities[k]) == Immutable(y.authorities[k])
  {
    assert |Immutables(x.authorities)| == |x.authorities| && |Immutables(y.authorities)| == |y.authorities|;
    assert Immutables(x.authorities)[k] == Immutables(y.authorities)[k];
  }

  lemma SanitizedRemovals(original: S.Payload, x: Export, k: nat)
    requires S.CanSanitize(original, ToErase(x)) && k < |x.authorities|
    ensures RemovalApplied(x, SanitizedBy(original, x), x.authorities[k].id, x.authorities[k].resource,
                           x.authorities[k].generation)
  {
    var payload := SanitizedBy(original, x);
    assert S.AuthorityOk(ToErase(x)[k]);
    forall i | 0 <= i < |x.authorities[k].targets| ensures S.Erased(payload, x.authorities[k].targets[i]) {
      S.SanitizedErases(original, ToErase(x), k, i);
    }
  }

  /** No resurrection: however removals interleave with the gate and the later activation,
      once a restore is ready to activate every removal in the export used for the lease has
      been applied to its payload. */
  lemma NoResurrection(states: seq<State>, actions: seq<Action>, i: nat, id: nat, k: nat)
    requires IsRun(states, actions) && i < |states|
    requires id in states[i].restores && states[i].restores[id].ActivationReady?
    requires k < |states[i].restores[id].fetched.authorities|
    ensures var r := states[i].restores[id];
            var removal := r.fetched.authorities[k];
            RemovalApplied(r.authority, r.payload, removal.id, removal.resource, removal.generation)
  {
    RunKeeps(states, actions, i);
    var r := states[i].restores[id];
    assert RestoreOk(r, states[i].tenant);
    SameImmutables(r.fetched, r.authority, k);
    SanitizedRemovals(r.original, r.authority, k);
  }

  /** A restore that is ready to activate was sanitized under an export in which nothing has moved
      up to the export fetched for activation: removals, head, inventory, store evidence, archive. */
  lemma ActivatedUnmoved(states: seq<State>, actions: seq<Action>, i: nat, id: nat)
    requires IsRun(states, actions) && i < |states|
    requires id in states[i].restores && states[i].restores[id].ActivationReady?
    ensures var r := states[i].restores[id];
            && Unmoved(r.authority, r.fetched)
            && r.payload == SanitizedBy(r.original, r.authority)
            && r.fetched.epoch == r.atLease.epoch && r.atLease.tenant == states[i].tenant
  {
    RunKeeps(states, actions, i);
    var r := states[i].restores[id];
    assert RestoreOk(r, states[i].tenant);
    FingerprintsEqualIff(r.authority, r.fetched);
  }

  /** At the moment the lease was granted, every removal recorded in the ledger had been
      applied to the payload. */
  lemma LedgerAppliedAtLease(states: seq<State>, actions: seq<Action>, i: nat, id: nat, record: Record)
    requires IsRun(states, actions) && i < |states|
    requires id in states[i].restores && states[i].restores[id].ActivationReady?
    requires record in states[i].restores[id].atLease.authorities
    ensures var r := states[i].restores[id];
            RemovalApplied(r.authority, r.payload, record.id, record.resource, record.generation)
  {
    RunKeeps(states, actions, i);
    var s := states[i];
    var r := s.restores[id];
    assert RestoreOk(r, s.tenant);
    var d := r.atLease;
    CanonicalForm(d.authorities, d.tenant, d.epoch);
    var current := Normalize(d);
    assert record in current.authorities;
    var k :| 0 <= k < |current.authorities| && current.authorities[k] == record;
    HeadsAgree(r.fetched, r.authority, current);
    SameImmutables(current, r.authority, k);
    SanitizedRemovals(r.original, r.authority, k);
  }

  lemma HeadsAgree(fetched: Export, authority: Export, current: Export)
    requires FingerprintOf(fetched) == FingerprintOf(authority)
    requires fetched.head == current.head
    requires HeadCovers(current) && HeadCovers(authority)
    ensures Immutables(current.authorities) == Immutables(authority.authorities)
  {
  }
}
