/**
 The scenario checks of `validate_bundle`, written independently of the evaluator, and the
 proof that the two judgements agree: what `evaluate_scenario` writes is accepted exactly
 when no two passing operations of one requirement contradict each other.  Also: the order
 of the recorded operations changes no verdict.
 */
module AcceptanceAgreement {
  import opened Wrappers
  import opened Sequences
  import opened Acceptance

  type Index = map<string, Record>

  // ---- The validator

  predicate Known(byId: Index, ids: seq<string>) {
    forall i :: 0 <= i < |ids| ==> ids[i] in byId
  }

  function Resolve(byId: Index, ids: seq<string>): (rs: seq<Record>)
    requires Known(byId, ids)
  {
    seq(|ids|, i requires 0 <= i < |ids| => byId[ids[i]])
  }

  predicate AllPass(rs: seq<Record>) {
    forall i :: 0 <= i < |rs| ==> rs[i].status == Pass
  }

  predicate Names(os: seq<Observation>, name: string) {
    exists i :: 0 <= i < |os| && os[i].name == name
  }

  /** `_declared_observations(requirement).get(name)` */
  function FieldsOf(os: seq<Observation>, name: string): (fields: seq<string>)
    requires Names(os, name)
  {
    if os[|os| - 1].name == name then os[|os| - 1].fields else FieldsOf(os[..|os| - 1], name)
  }

  predicate ObservationValid(q: Requirement, o: ObservationResult, byId: Index) {
    && Names(Declared(q), o.name)
    && Known(byId, o.operationIds)
    && var rs := Resolve(byId, o.operationIds);
       var values := Observed(Passing(rs));
       && (forall i :: 0 <= i < |rs| ==> rs[i].observation == o.name)
       && o.fields == values.Keys
       && (o.status == Pass ==>
             rs != [] && AllPass(rs) && Covers(values, FieldsOf(Declared(q), o.name)) && Conflicts(Passing(rs)) == {})
  }

  predicate BelongsTo(r: Record, s: Scenario, q: Requirement) {
    r.scenario == s.id && r.role == q.role && r.proofCase == q.proofCase
  }

  predicate ObservationNames(q: Requirement, os: seq<ObservationResult>) {
    ResultNames(os) == DeclaredNames(Declared(q))
  }

  function ResultNames(os: seq<ObservationResult>): (names: set<string>) {
    set i | 0 <= i < |os| :: os[i].name
  }

  function DeclaredNames(os: seq<Observation>): (names: set<string>) {
    set i | 0 <= i < |os| :: os[i].name
  }

  predicate CaseValid(s: Scenario, q: Requirement, c: CaseResult, byId: Index) {
    && c.role == q.role && c.proofCase == q.proofCase
    && Known(byId, c.operationIds)
    && var rs := Resolve(byId, c.operationIds);
       var values, conflicts := Observed(Passing(rs)), Conflicts(Passing(rs));
       && (forall i :: 0 <= i < |rs| ==> BelongsTo(rs[i], s, q))
       && c.fields == values.Keys
       && ObservationNames(q, c.observations)
       && (forall i :: 0 <= i < |c.observations| ==> ObservationValid(q, c.observations[i], byId))
       && (c.status == Pass ==>
           rs != [] && AllPass(rs) && Covers(values, q.evidence) && AllObservationsPass(c.observations))
       && conflicts == {}
  }

  predicate HasCase(cs: seq<CaseResult>, id: string) {
    exists i :: 0 <= i < |cs| && cs[i].requirement == id
  }

  function CaseFor(cs: seq<CaseResult>, id: string): (c: CaseResult)
    requires HasCase(cs, id)
    ensures c in cs && c.requirement == id
  {
    if cs[|cs| - 1].requirement == id then cs[|cs| - 1] else CaseFor(cs[..|cs| - 1], id)
  }

  predicate HasRequirement(qs: seq<Requirement>, id: string) {
    exists i :: 0 <= i < |qs| && qs[i].id == id
  }

  function RequirementFor(qs: seq<Requirement>, id: string): (q: Requirement)
    requires HasRequirement(qs, id)
    ensures q in qs && q.id == id
  {
    if qs[0].id == id then qs[0] else RequirementFor(qs[1..], id)
  }

  predicate RelationHolds(rel: Relation, left: map<string, string>, right: map<string, string>) {
    && Covers(left, rel.fields) && Covers(right, rel.fields)
    && var same := forall i :: 0 <= i < |rel.fields| ==> left[rel.fields[i]] == right[rel.fields[i]];
       (rel.kind == "equal" ==> same) && (rel.kind == "distinct" ==> !same)
  }

  predicate RelationValid(r: RelationResult, rel: Relation, cs: seq<CaseResult>, byId: Index) {
    && r.relation == rel
    && HasCase(cs, rel.left) && HasCase(cs, rel.right)
    && var left, right := CaseFor(cs, rel.left), CaseFor(cs, rel.right);
       r.status == Pass ==>
         && left.status == Pass && right.status == Pass
         && Known(byId, left.operationIds) && Known(byId, right.operationIds)
         && RelationHolds(rel, Observed(Passing(Resolve(byId, left.operationIds))),
                          Observed(Passing(Resolve(byId, right.operationIds))))
  }

  predicate CoverageNamesAll(s: Scenario, cs: seq<CaseResult>) {
    CaseNames(cs) == RequirementNames(s.requirements)
  }

  function CaseNames(cs: seq<CaseResult>): (names: set<string>) {
    set i | 0 <= i < |cs| :: cs[i].requirement
  }

  function RequirementNames(qs: seq<Requirement>): (names: set<string>) {
    set i | 0 <= i < |qs| :: qs[i].id
  }

  predicate CaseAtValid(s: Scenario, c: CaseResult, byId: Index) {
    && HasRequirement(s.requirements, c.requirement)
    && CaseValid(s, RequirementFor(s.requirements, c.requirement), c, byId)
  }

  predicate CasesValid(s: Scenario, cs: seq<CaseResult>, byId: Index) {
    forall i :: 0 <= i < |cs| ==> CaseAtValid(s, cs[i], byId)
  }

  predicate RelationsValid(s: Scenario, r: ScenarioResult, byId: Index) {
    |r.relations| == |s.relations| &&
    forall i :: 0 <= i < |r.relations| ==> RelationValid(r.relations[i], s.relations[i], r.coverage, byId)
  }

  predicate PassJustified(r: ScenarioResult, byId: Index)
    requires Known(byId, r.operationIds)
  {
    r.status == Pass ==>
      && (forall i :: 0 <= i < |r.coverage| ==> r.coverage[i].status == Pass)
      && (forall i :: 0 <= i < |r.relations| ==> r.relations[i].status == Pass)
      && r.operationIds != [] && AllPass(Resolve(byId, r.operationIds))
  }

  predicate ScenarioValid(s: Scenario, r: ScenarioResult, byId: Index) {
    && Known(byId, r.operationIds)
    && CoverageNamesAll(s, r.coverage)
    && CasesValid(s, r.coverage, byId)
    && RelationsValid(s, r, byId)
    && PassJustified(r, byId)
  }

  /** The validation loops: the first failing check ends the validation. */
  method ValidateScenario(s: Scenario, r: ScenarioResult, byId: Index) returns (ok: bool)
    ensures ok <==> ScenarioValid(s, r, byId)
  {
    if !Known(byId, r.operationIds) || !CoverageNamesAll(s, r.coverage) { return false; }
    for i := 0 to |r.coverage|
      invariant forall j :: 0 <= j < i ==> CaseAtValid(s, r.coverage[j], byId)
    {
      if !CaseAtValid(s, r.coverage[i], byId) { return false; }
    }
    if |r.relations| != |s.relations| { return false; }
    for i := 0 to |r.relations|
      invariant forall j :: 0 <= j < i ==> RelationValid(r.relations[j], s.relations[j], r.coverage, byId)
    {
      if !RelationValid(r.relations[i], s.relations[i], r.coverage, byId) { return false; }
    }
    return PassJustified(r, byId);
  }

  // ---- What the declarations and the recorded operations promise

  ghost predicate RequirementOk(q: Requirement) {
    && (forall i, j :: 0 <= i < j < |Declared(q)| ==> Declared(q)[i].name != Declared(q)[j].name)
    && (forall i :: 0 <= i < |q.evidence| ==>
          exists k :: 0 <= k < |Declared(q)| && q.evidence[i] in Declared(q)[k].fields)
  }

  ghost predicate ScenarioOk(s: Scenario) {
    && s.requirements != []
    && (forall i :: 0 <= i < |s.requirements| ==> RequirementOk(s.requirements[i]))
    && (forall i, j :: 0 <= i < j < |s.requirements| ==> s.requirements[i].id != s.requirements[j].id)
    && (forall i :: 0 <= i < |s.relations| ==>
          HasRequirement(s.requirements, s.relations[i].left) && HasRequirement(s.requirements, s.relations[i].right))
  }

  /** The records of the scenario are indexed under their ids and use declared observations. */
  ghost predicate RecordsOk(s: Scenario, records: seq<Record>, byId: Index) {
    && (forall r :: r in records ==> r.id in byId && byId[r.id] == r && r.scenario == s.id)
    && (forall r, i :: r in records && 0 <= i < |s.requirements| && BelongsTo(r, s, s.requirements[i]) ==>
          Names(Declared(s.requirements[i]), r.observation))
  }

  /** Two passing records of the requirement disagree on a field. */
  ghost predicate Contradicts(q: Requirement, records: seq<Record>) {
    Disagree(Passing(Candidates(q, records)))
  }

  // ---- Membership facts

  lemma CandidateMembers(q: Requirement, records: seq<Record>)
    ensures forall r :: r in Candidates(q, records) <==> r in records && r.role == q.role && r.proofCase == q.proofCase
  {
    FilterMembers(records, (x: Record) => x.role == q.role && x.proofCase == q.proofCase);
  }

  lemma ObservationMembers(rs: seq<Record>, name: string)
    ensures forall r :: r in ForObservation(rs, name) <==> r in rs && r.observation == name
  {
    FilterMembers(rs, (x: Record) => x.observation == name);
  }

  lemma PassingMembers(rs: seq<Record>)
    ensures forall r :: r in Passing(rs) <==> r in rs && r.status == Pass
  {
    FilterMembers(rs, (x: Record) => x.status == Pass);
  }

  lemma {:induction false} PassingDeclaredMembers(os: seq<Observation>, candidates: seq<Record>)
    ensures forall r :: r in PassingDeclared(os, candidates) <==>
              r in candidates && r.status == Pass && Names(os, r.observation)
  {
    if os != [] {
      var n := |os| - 1;
      PassingDeclaredMembers(os[..n], candidates);
      ObservationMembers(candidates, os[n].name);
      PassingMembers(ForObservation(candidates, os[n].name));
      forall name ensures Names(os, name) <==> Names(os[..n], name) || os[n].name == name {
        if i :| 0 <= i < |os| && os[i].name == name {
          if i < n { assert os[..n][i].name == name; }
        }
      }
    }
  }

  /** Passing a list that already passes changes nothing. */
  lemma {:induction false} PassingAll(rs: seq<Record>)
    requires AllPass(rs)
    ensures Passing(rs) == rs
  {
    if rs != [] {
      assert AllPass(rs[..|rs| - 1]);
      PassingAll(rs[..|rs| - 1]);
      assert rs == rs[..|rs| - 1] + [rs[|rs| - 1]];
    }
  }

  lemma ResolveIds(rs: seq<Record>, byId: Index)
    requires forall r :: r in rs ==> r.id in byId && byId[r.id] == r
    ensures Known(byId, Ids(rs)) && Resolve(byId, Ids(rs)) == rs
  {
    forall i | 0 <= i < |rs| ensures Ids(rs)[i] in byId && byId[Ids(rs)[i]] == rs[i] { assert rs[i] in rs; }
  }

  lemma {:induction false} NonePassing(rs: seq<Record>)
    requires forall r :: r in rs ==> r.status != Pass
    ensures Passing(rs) == []
  {
    if rs != [] { NonePassing(rs[..|rs| - 1]); }
  }

  /** The operations that a result names, and the passing ones among them, are what the
      evaluator looked at. */
  lemma NamedOperations(passing: seq<Record>, candidates: seq<Record>, byId: Index)
    requires forall r :: r in candidates ==> r.id in byId && byId[r.id] == r
    requires forall r :: r in passing <==> r in candidates && r.status == Pass
    ensures var ids := if passing != [] then Ids(passing) else Ids(candidates);
            && Known(byId, ids)
            && Resolve(byId, ids) == (if passing != [] then passing else candidates)
            && Passing(Resolve(byId, ids)) == passing
            && (forall r :: r in Resolve(byId, ids) ==> r in candidates)
  {
    ResolveIds(passing, byId);
    ResolveIds(candidates, byId);
    if passing != [] {
      assert AllPass(passing) by { assert forall i :: 0 <= i < |passing| ==> passing[i] in passing; }
      PassingAll(passing);
    } else {
      NonePassing(candidates);
    }
  }

  // ---- What depends only on which records there are

  ghost predicate SameMembers(a: seq<Record>, b: seq<Record>) {
    forall r :: r in a <==> r in b
  }

  lemma MembersDecideDisagreement(a: seq<Record>, b: seq<Record>)
    requires SameMembers(a, b)
    ensures Disagree(a) <==> Disagree(b)
    ensures Conflicts(a) == {} <==> Conflicts(b) == {}
  {
    ConflictsMeanDisagreement(a);
    ConflictsMeanDisagreement(b);
  }

  lemma MembersDecideFields(a: seq<Record>, b: seq<Record>)
    requires SameMembers(a, b)
    ensures Observed(a).Keys == Observed(b).Keys
  {
    ObservedValues(a);
    ObservedValues(b);
  }

  lemma MembersDecideValues(a: seq<Record>, b: seq<Record>)
    requires SameMembers(a, b) && !Disagree(a)
    ensures Observed(a) == Observed(b)
  {
    MembersDecideDisagreement(a, b);
    MembersDecideFields(a, b);
    ObservedValues(a);
    AgreedValues(b);
    forall name | name in Observed(a) ensures Observed(a)[name] == Observed(b)[name] {
      var r :| r in a && name in Values(r) && Values(r)[name] == Observed(a)[name];
      assert r in b;
    }
  }

  // ---- One observation

  lemma {:induction false} FieldsOfDeclared(os: seq<Observation>, k: nat)
    requires k < |os|
    requires forall i, j :: 0 <= i < j < |os| ==> os[i].name != os[j].name
    ensures Names(os, os[k].name) && FieldsOf(os, os[k].name) == os[k].fields
  {
    if k < |os| - 1 { FieldsOfDeclared(os[..|os| - 1], k); }
  }

  lemma NoPassingNoPass(rs: seq<Record>)
    requires Passing(rs) == []
    ensures AggregateStatus(rs) != Pass
  {
    PassingMembers(rs);
    if rs != [] {
      assert rs[0] in rs;
      assert HasStatus(rs, rs[0].status);
    }
  }

  /** The evaluator's judgement of one observation always survives the validator. */
  lemma ObservationAccepted(q: Requirement, k: nat, candidates: seq<Record>, byId: Index)
    requires RequirementOk(q) && k < |Declared(q)|
    requires forall r :: r in candidates ==> r.id in byId && byId[r.id] == r
    ensures ObservationValid(q, JudgeObservation(Declared(q)[k], ForObservation(candidates, Declared(q)[k].name)), byId)
  {
    var o := Declared(q)[k];
    ObservationMembers(candidates, o.name);
    FieldsOfDeclared(Declared(q), k);
    JudgedIsValid(q, o, ForObservation(candidates, o.name), byId);
  }

  lemma JudgedIsValid(q: Requirement, o: Observation, rs: seq<Record>, byId: Index)
    requires Names(Declared(q), o.name) && FieldsOf(Declared(q), o.name) == o.fields
    requires forall r :: r in rs ==> r.id in byId && byId[r.id] == r && r.observation == o.name
    ensures ObservationValid(q, JudgeObservation(o, rs), byId)
  {
    var named := if Passing(rs) != [] then Passing(rs) else rs;
    PassingMembers(rs);
    NamedOperations(Passing(rs), rs, byId);
    NamedCarry(o, named, rs);
    NamedIsValid(q, o, rs, byId, named);
  }

  lemma NamedCarry(o: Observation, named: seq<Record>, rs: seq<Record>)
    requires forall r :: r in named ==> r in rs
    requires forall r :: r in rs ==> r.observation == o.name
    ensures forall i :: 0 <= i < |named| ==> named[i].observation == o.name
  {
    forall i | 0 <= i < |named| ensures named[i].observation == o.name { assert named[i] in named; }
  }

  /** A result that names these records is valid. */
  lemma NamedIsValid(q: Requirement, o: Observation, rs: seq<Record>, byId: Index, named: seq<Record>)
    requires Names(Declared(q), o.name) && FieldsOf(Declared(q), o.name) == o.fields
    requires named == if Passing(rs) != [] then Passing(rs) else rs
    requires Known(byId, Ids(named)) && Resolve(byId, Ids(named)) == named && Passing(named) == Passing(rs)
    requires forall i :: 0 <= i < |named| ==> named[i].observation == o.name
    ensures ObservationValid(q, JudgeObservation(o, rs), byId)
  {
    if ObservationStatus(o, rs) == Pass {
      PassNeedsPassing(o, rs);
      PassingAllPass(rs);
    }
  }

  lemma PassingAllPass(rs: seq<Record>)
    ensures AllPass(Passing(rs))
  {
    PassingMembers(rs);
    assert forall i :: 0 <= i < |Passing(rs)| ==> Passing(rs)[i] in Passing(rs);
  }

  lemma PassNeedsPassing(o: Observation, rs: seq<Record>)
    requires ObservationStatus(o, rs) == Pass
    ensures Passing(rs) != [] && Conflicts(Passing(rs)) == {} && Covers(Observed(Passing(rs)), o.fields)
  {
    if Passing(rs) == [] { NoPassingNoPass(rs); }
  }

  // ---- One case

  lemma CasePassing(q: Requirement, candidates: seq<Record>)
    requires forall r :: r in candidates ==> Names(Declared(q), r.observation)
    ensures forall r :: r in PassingDeclared(Declared(q), candidates) <==> r in candidates && r.status == Pass
    ensures SameMembers(PassingDeclared(Declared(q), candidates), Passing(candidates))
  {
    PassingDeclaredMembers(Declared(q), candidates);
    PassingMembers(candidates);
  }

  /** A passing case has passing operations, and they show every declared evidence field. */
  lemma PassingCaseCovers(q: Requirement, candidates: seq<Record>)
    requires RequirementOk(q)
    requires AllObservationsPass(Observations(Declared(q), candidates))
    ensures PassingDeclared(Declared(q), candidates) != []
    ensures Covers(Observed(PassingDeclared(Declared(q), candidates)), q.evidence)
  {
    var os := Declared(q);
    var passing := PassingDeclared(os, candidates);
    forall k | 0 <= k < |os|
      ensures passing != [] && forall f :: f in os[k].fields ==> f in Observed(passing)
    {
      PassingObservationShows(os, k, candidates);
    }
    assert passing != [] by { assert 0 < |os|; }
    forall i | 0 <= i < |q.evidence| ensures q.evidence[i] in Observed(passing) {
      var k :| 0 <= k < |os| && q.evidence[i] in os[k].fields;
    }
  }

  lemma PassingObservationShows(os: seq<Observation>, k: nat, candidates: seq<Record>)
    requires k < |os| && Observations(os, candidates)[k].status == Pass
    ensures PassingDeclared(os, candidates) != []
    ensures forall f :: f in os[k].fields ==> f in Observed(PassingDeclared(os, candidates))
  {
    var rs := ForObservation(candidates, os[k].name);
    var own, all := Passing(rs), PassingDeclared(os, candidates);
    PassNeedsPassing(os[k], rs);
    ObservationMembers(candidates, os[k].name);
    PassingMembers(rs);
    PassingDeclaredMembers(os, candidates);
    assert own[0] in all;
    ObservedValues(own);
    ObservedValues(all);
    forall f | f in os[k].fields ensures f in Observed(all) {
      var r :| r in own && f in Values(r) && Values(r)[f] == Observed(own)[f];
      assert r in all;
    }
  }

  ghost predicate CandidatesOk(s: Scenario, q: Requirement, records: seq<Record>, byId: Index) {
    forall r :: r in Candidates(q, records) ==>
      && r.id in byId && byId[r.id] == r && BelongsTo(r, s, q) && Names(Declared(q), r.observation)
  }

  lemma CandidatesAreOk(s: Scenario, q: Requirement, records: seq<Record>, byId: Index)
    requires RecordsOk(s, records, byId) && q in s.requirements
    ensures CandidatesOk(s, q, records, byId)
  {
    CandidateMembers(q, records);
    var i :| 0 <= i < |s.requirements| && s.requirements[i] == q;
  }

  /** The operations of a case, as the validator looks them up. */
  lemma CaseOperations(s: Scenario, q: Requirement, records: seq<Record>, byId: Index)
    requires CandidatesOk(s, q, records, byId)
    ensures var c, passing := JudgeCase(q, records), PassingDeclared(Declared(q), Candidates(q, records));
            && Known(byId, c.operationIds)
            && Passing(Resolve(byId, c.operationIds)) == passing
            && (forall r :: r in Resolve(byId, c.operationIds) ==> BelongsTo(r, s, q))
            && (passing != [] ==> Resolve(byId, c.operationIds) == passing)
            && AllPass(passing)
  {
    var candidates := Candidates(q, records);
    var passing := PassingDeclared(Declared(q), candidates);
    CasePassing(q, candidates);
    NamedOperations(passing, candidates, byId);
    assert forall i :: 0 <= i < |passing| ==> passing[i] in passing;
  }

  lemma CaseConflicts(s: Scenario, q: Requirement, records: seq<Record>, byId: Index)
    requires CandidatesOk(s, q, records, byId)
    ensures Conflicts(PassingDeclared(Declared(q), Candidates(q, records))) == {} <==> !Contradicts(q, records)
  {
    var candidates := Candidates(q, records);
    CasePassing(q, candidates);
    MembersDecideDisagreement(PassingDeclared(Declared(q), candidates), Passing(candidates));
    ConflictsMeanDisagreement(Passing(candidates));
  }

  lemma PassingCase(q: Requirement, records: seq<Record>)
    requires RequirementOk(q) && JudgeCase(q, records).status == Pass
    ensures var passing := PassingDeclared(Declared(q), Candidates(q, records));
            && passing != [] && Covers(Observed(passing), q.evidence) && Conflicts(passing) == {}
            && AllObservationsPass(JudgeCase(q, records).observations)
  {
    PassingCaseCovers(q, Candidates(q, records));
  }

  lemma SameNames(q: Requirement, candidates: seq<Record>)
    ensures ObservationNames(q, Observations(Declared(q), candidates))
  {
    var os, results := Declared(q), Observations(Declared(q), candidates);
    var left, right := ResultNames(results), DeclaredNames(os);
    forall name ensures name in left <==> name in right {
      if name in left { var i :| 0 <= i < |results| && results[i].name == name; assert os[i].name == name; }
      if name in right { var i :| 0 <= i < |os| && os[i].name == name; assert results[i].name == name; }
    }
  }

  /** The evaluator's case is accepted exactly when its passing records do not contradict
      each other. */
  lemma CaseAcceptedIff(s: Scenario, q: Requirement, records: seq<Record>, byId: Index)
    requires RequirementOk(q) && CandidatesOk(s, q, records, byId)
    ensures CaseValid(s, q, JudgeCase(q, records), byId) <==> !Contradicts(q, records)
  {
    var c, candidates := JudgeCase(q, records), Candidates(q, records);
    CaseOperations(s, q, records, byId);
    CaseConflicts(s, q, records, byId);
    SameNames(q, candidates);
    var named := Resolve(byId, c.operationIds);
    forall i | 0 <= i < |named| ensures BelongsTo(named[i], s, q) { assert named[i] in named; }
    forall i | 0 <= i < |c.observations| ensures ObservationValid(q, c.observations[i], byId) {
      ObservationAccepted(q, i, candidates, byId);
    }
    if c.status == Pass { PassingCase(q, records); }
  }

  // ---- The whole scenario

  ghost predicate DistinctIds(qs: seq<Requirement>) {
    forall i, j :: 0 <= i < j < |qs| ==> qs[i].id != qs[j].id
  }

  lemma {:induction false} CaseAt(cs: seq<CaseResult>, k: nat)
    requires k < |cs| && forall i, j :: 0 <= i < j < |cs| ==> cs[i].requirement != cs[j].requirement
    ensures HasCase(cs, cs[k].requirement) && CaseFor(cs, cs[k].requirement) == cs[k]
  {
    if k < |cs| - 1 { CaseAt(cs[..|cs| - 1], k); }
  }

  lemma CaseForRequirement(qs: seq<Requirement>, records: seq<Record>, k: nat)
    requires DistinctIds(qs) && k < |qs|
    ensures HasCase(Coverage(qs, records), qs[k].id)
    ensures CaseFor(Coverage(qs, records), qs[k].id) == JudgeCase(qs[k], records)
  {
    var cs := Coverage(qs, records);
    assert forall i :: 0 <= i < |qs| ==> cs[i].requirement == qs[i].id;
    CaseAt(cs, k);
  }

  lemma {:induction false} SelectedForRequirement(qs: seq<Requirement>, records: seq<Record>, k: nat)
    requires DistinctIds(qs) && k < |qs|
    ensures Selected(qs, records, qs[k].id) ==
            if JudgeCase(qs[k], records).status == Pass then Some(CaseValues(qs[k], records)) else None
  {
    var n := |qs| - 1;
    if k < n {
      assert DistinctIds(qs[..n]);
      SelectedForRequirement(qs[..n], records, k);
      OtherLast(qs, records, qs[k].id);
    } else {
      SelectedAlone(qs, records);
    }
  }

  lemma SelectedAlone(qs: seq<Requirement>, records: seq<Record>)
    requires DistinctIds(qs) && qs != []
    ensures var q := qs[|qs| - 1];
            Selected(qs, records, q.id) ==
            if JudgeCase(q, records).status == Pass then Some(CaseValues(q, records)) else None
  {
    var n := |qs| - 1;
    NothingSelected(qs[..n], records, qs[n].id);
    SelectedLast(qs, records);
  }

  lemma OtherLast(qs: seq<Requirement>, records: seq<Record>, id: string)
    requires qs != [] && qs[|qs| - 1].id != id
    ensures Selected(qs, records, id) == Selected(qs[..|qs| - 1], records, id)
  {
  }

  lemma SelectedLast(qs: seq<Requirement>, records: seq<Record>)
    requires qs != []
    ensures var q := qs[|qs| - 1];
            Selected(qs, records, q.id) ==
            if JudgeCase(q, records).status == Pass then Some(CaseValues(q, records))
            else Selected(qs[..|qs| - 1], records, q.id)
  {
  }

  lemma {:induction false} NothingSelected(qs: seq<Requirement>, records: seq<Record>, id: string)
    requires forall i :: 0 <= i < |qs| ==> qs[i].id != id
    ensures Selected(qs, records, id) == None
  {
    if qs != [] { NothingSelected(qs[..|qs| - 1], records, id); }
  }

  lemma {:induction false} RequirementAt(qs: seq<Requirement>, k: nat)
    requires DistinctIds(qs) && k < |qs|
    ensures HasRequirement(qs, qs[k].id) && RequirementFor(qs, qs[k].id) == qs[k]
  {
    if k > 0 { RequirementAt(qs[1..], k - 1); }
  }

  /** The values that the validator recovers for a case are those the evaluator selected. */
  lemma RelatedCase(s: Scenario, records: seq<Record>, byId: Index, id: string)
    requires ScenarioOk(s) && RecordsOk(s, records, byId) && HasRequirement(s.requirements, id)
    ensures var cs := Coverage(s.requirements, records);
            && HasCase(cs, id) && Known(byId, CaseFor(cs, id).operationIds)
            && Selected(s.requirements, records, id) ==
               if CaseFor(cs, id).status == Pass then
                 Some(Observed(Passing(Resolve(byId, CaseFor(cs, id).operationIds))))
               else None
  {
    var qs := s.requirements;
    var k :| 0 <= k < |qs| && qs[k].id == id;
    CaseForRequirement(qs, records, k);
    SelectedForRequirement(qs, records, k);
    CandidatesAreOk(s, qs[k], records, byId);
    CaseOperations(s, qs[k], records, byId);
  }

  /** A passing relation rests on two passing cases. */
  lemma RelationAccepted(s: Scenario, records: seq<Record>, byId: Index, i: nat)
    requires ScenarioOk(s) && RecordsOk(s, records, byId) && i < |s.relations|
    ensures RelationValid(Relations(s, records)[i], s.relations[i], Coverage(s.requirements, records), byId)
  {
    RelatedCase(s, records, byId, s.relations[i].left);
    RelatedCase(s, records, byId, s.relations[i].right);
  }

  lemma CoverageNamed(s: Scenario, records: seq<Record>)
    ensures CoverageNamesAll(s, Coverage(s.requirements, records))
  {
    var qs, cs := s.requirements, Coverage(s.requirements, records);
    var left, right := CaseNames(cs), RequirementNames(qs);
    forall id ensures id in left <==> id in right {
      if id in left { var i :| 0 <= i < |cs| && cs[i].requirement == id; assert qs[i].id == id; }
      if id in right { var i :| 0 <= i < |qs| && qs[i].id == id; assert cs[i].requirement == id; }
    }
  }

  lemma CaseAtAcceptedIff(s: Scenario, records: seq<Record>, byId: Index, i: nat)
    requires ScenarioOk(s) && RecordsOk(s, records, byId) && i < |s.requirements|
    ensures CaseAtValid(s, Coverage(s.requirements, records)[i], byId) <==> !Contradicts(s.requirements[i], records)
  {
    var q := s.requirements[i];
    RequirementAt(s.requirements, i);
    CandidatesAreOk(s, q, records, byId);
    CaseAcceptedIff(s, q, records, byId);
    assert Coverage(s.requirements, records)[i] == JudgeCase(q, records);
  }

  lemma CasesAcceptedIff(s: Scenario, records: seq<Record>, byId: Index)
    requires ScenarioOk(s) && RecordsOk(s, records, byId)
    ensures CasesValid(s, Coverage(s.requirements, records), byId) <==>
            forall q :: q in s.requirements ==> !Contradicts(q, records)
  {
    var qs, cs := s.requirements, Coverage(s.requirements, records);
    var valid := seq(|qs|, i requires 0 <= i < |qs| => CaseAtValid(s, cs[i], byId));
    forall i | 0 <= i < |qs| ensures valid[i] <==> !Contradicts(qs[i], records) {
      CaseAtAcceptedIff(s, records, byId, i);
    }
    AllOrNone(qs, records, valid);
    assert CasesValid(s, cs, byId) <==> forall i :: 0 <= i < |valid| ==> valid[i];
  }

  lemma AllOrNone(qs: seq<Requirement>, records: seq<Record>, valid: seq<bool>)
    requires |valid| == |qs| && forall i :: 0 <= i < |qs| ==> (valid[i] <==> !Contradicts(qs[i], records))
    ensures (forall i :: 0 <= i < |valid| ==> valid[i]) <==> forall q :: q in qs ==> !Contradicts(q, records)
  {
    if forall q :: q in qs ==> !Contradicts(q, records) {
      forall i | 0 <= i < |valid| ensures valid[i] { assert qs[i] in qs; }
    }
  }

  // ---- The operations behind the scenario

  lemma {:induction false} NewIdsMembers(ids: seq<string>, known: seq<string>)
    ensures forall id :: id in NewIds(ids, known) <==> id in ids || id in known
  {
    if ids != [] {
      NewIdsMembers(ids[..|ids| - 1], known);
      assert ids == ids[..|ids| - 1] + [ids[|ids| - 1]];
    }
  }

  /** An operation that the case adds to the scenario's list. */
  ghost predicate Adds(q: Requirement, records: seq<Record>, id: string) {
    exists r :: r in Candidates(q, records) && r.id == id && AddsRecord(q, records, r)
  }

  ghost predicate AddsRecord(q: Requirement, records: seq<Record>, r: Record) {
    var passing := PassingDeclared(Declared(q), Candidates(q, records));
    if passing == [] then true else JudgeCase(q, records).status == Pass && r in passing
  }

  lemma AddIdsMembers(before: seq<string>, q: Requirement, records: seq<Record>)
    ensures var candidates := Candidates(q, records);
            var after :=
              AddIds(before, JudgeCase(q, records).status, candidates, PassingDeclared(Declared(q), candidates));
            forall id :: id in after <==> id in before || Adds(q, records, id)
  {
    var candidates := Candidates(q, records);
    var passing, status := PassingDeclared(Declared(q), candidates), JudgeCase(q, records).status;
    PassingDeclaredMembers(Declared(q), candidates);
    NewIdsMembers(Ids(candidates), before);
    var after := AddIds(before, status, candidates, passing);
    if passing == [] {
      assert Ids(passing) == [] && before + [] == before;
      IdsMembers(candidates);
    } else {
      IdsMembers(passing);
    }
    forall id ensures id in after <==> id in before || Adds(q, records, id) {
      if r :| r in passing && r.id == id && status == Pass { assert AddsRecord(q, records, r); }
    }
  }

  lemma IdsMembers(rs: seq<Record>)
    ensures forall id :: id in Ids(rs) <==> exists r :: r in rs && r.id == id
  {
    forall r | r in rs ensures r.id in Ids(rs) {
      var i :| 0 <= i < |rs| && rs[i] == r;
      assert Ids(rs)[i] == r.id;
    }
  }

  ghost predicate AddsAny(qs: seq<Requirement>, records: seq<Record>, id: string) {
    exists q :: q in qs && Adds(q, records, id)
  }

  lemma AddsAnyNext(qs: seq<Requirement>, records: seq<Record>, id: string)
    requires qs != []
    ensures AddsAny(qs, records, id) <==> AddsAny(qs[..|qs| - 1], records, id) || Adds(qs[|qs| - 1], records, id)
  {
    assert qs == qs[..|qs| - 1] + [qs[|qs| - 1]];
  }

  lemma {:induction false} OperationIdsMembers(qs: seq<Requirement>, records: seq<Record>)
    ensures forall id :: id in OperationIds(qs, records) <==> AddsAny(qs, records, id)
  {
    if qs != [] {
      var n := |qs| - 1;
      OperationIdsMembers(qs[..n], records);
      AddIdsMembers(OperationIds(qs[..n], records), qs[n], records);
      forall id ensures id in OperationIds(qs, records) <==> AddsAny(qs, records, id) { AddsAnyNext(qs, records, id); }
    }
  }

  lemma OperationsKnown(s: Scenario, records: seq<Record>, byId: Index)
    requires RecordsOk(s, records, byId)
    ensures Known(byId, OperationIds(s.requirements, records))
  {
    var ids := OperationIds(s.requirements, records);
    OperationIdsMembers(s.requirements, records);
    forall i | 0 <= i < |ids| ensures ids[i] in byId {
      assert ids[i] in ids;
      assert AddsAny(s.requirements, records, ids[i]);
      var q :| q in s.requirements && Adds(q, records, ids[i]);
      CandidateMembers(q, records);
    }
  }

  lemma StatusesPass(s: Scenario, records: seq<Record>)
    requires Evaluate(s, records).status == Pass
    ensures forall i :: 0 <= i < |s.requirements| ==> Coverage(s.requirements, records)[i].status == Pass
    ensures forall i :: 0 <= i < |s.relations| ==> Relations(s, records)[i].status == Pass
  {
    var cs, rs := Coverage(s.requirements, records), Relations(s, records);
    forall i | 0 <= i < |cs| ensures cs[i].status == Pass {
      assert !AnyCase(cs, Defect) && !AnyCase(cs, Unverified) && !AnyCase(cs, Unsupported);
    }
    forall i | 0 <= i < |rs| ensures rs[i].status == Pass {
      assert !AnyRelation(rs, Defect) && !AnyRelation(rs, Unverified) && !AnyRelation(rs, Unsupported);
    }
  }

  lemma PassingCaseAdds(q: Requirement, records: seq<Record>) returns (id: string)
    requires RequirementOk(q) && JudgeCase(q, records).status == Pass
    ensures Adds(q, records, id)
  {
    PassingCase(q, records);
    var passing := PassingDeclared(Declared(q), Candidates(q, records));
    PassingDeclaredMembers(Declared(q), Candidates(q, records));
    assert passing[0] in passing && AddsRecord(q, records, passing[0]);
    id := passing[0].id;
  }

  lemma AddedPasses(s: Scenario, q: Requirement, records: seq<Record>, byId: Index, id: string)
    requires RecordsOk(s, records, byId) && RequirementOk(q)
    requires JudgeCase(q, records).status == Pass && Adds(q, records, id)
    ensures id in byId && byId[id].status == Pass
  {
    PassingCase(q, records);
    PassingDeclaredMembers(Declared(q), Candidates(q, records));
    CandidateMembers(q, records);
  }

  /** A scenario the evaluator passes rests on operations that all pass. */
  lemma PassIsJustified(s: Scenario, records: seq<Record>, byId: Index)
    requires ScenarioOk(s) && RecordsOk(s, records, byId)
    ensures Known(byId, OperationIds(s.requirements, records)) && PassJustified(Evaluate(s, records), byId)
  {
    OperationsKnown(s, records, byId);
    if Evaluate(s, records).status == Pass {
      StatusesPass(s, records);
      OperationsPass(s, records, byId);
    }
  }

  lemma OperationsPass(s: Scenario, records: seq<Record>, byId: Index)
    requires ScenarioOk(s) && RecordsOk(s, records, byId)
    requires forall i :: 0 <= i < |s.requirements| ==> Coverage(s.requirements, records)[i].status == Pass
    ensures OperationIds(s.requirements, records) != []
    ensures forall id :: id in OperationIds(s.requirements, records) ==> id in byId && byId[id].status == Pass
  {
    var qs, ids := s.requirements, OperationIds(s.requirements, records);
    OperationIdsMembers(qs, records);
    assert Coverage(qs, records)[0].status == Pass && qs[0] in qs;
    var first := PassingCaseAdds(qs[0], records);
    assert AddsAny(qs, records, first);
    forall id | id in ids ensures id in byId && byId[id].status == Pass {
      var q :| q in qs && Adds(q, records, id);
      var k :| 0 <= k < |qs| && qs[k] == q;
      assert Coverage(qs, records)[k].status == Pass;
      AddedPasses(s, q, records, byId, id);
    }
  }

  /** Evaluator and validator agree: the record of `evaluate_scenario` passes the checks of
      `validate_bundle` exactly when no two passing operations of one requirement disagree
      on a field. */
  lemma EvaluatorAndValidatorAgree(s: Scenario, records: seq<Record>, byId: Index)
    requires ScenarioOk(s) && RecordsOk(s, records, byId)
    ensures ScenarioValid(s, Evaluate(s, records), byId) <==>
            forall q :: q in s.requirements ==> !Contradicts(q, records)
  {
    var r := Evaluate(s, records);
    PassIsJustified(s, records, byId);
    CoverageNamed(s, records);
    CasesAcceptedIff(s, records, byId);
    forall i | 0 <= i < |s.relations| ensures RelationValid(r.relations[i], s.relations[i], r.coverage, byId) {
      RelationAccepted(s, records, byId, i);
    }
  }

  // ---- The order of the records

  ghost predicate SameObservation(a: ObservationResult, b: ObservationResult) {
    a.name == b.name && a.status == b.status && a.fields == b.fields
  }

  ghost predicate SameCase(a: CaseResult, b: CaseResult) {
    && a.requirement == b.requirement && a.status == b.status && a.fields == b.fields
    && |a.observations| == |b.observations|
    && forall i :: 0 <= i < |a.observations| ==> SameObservation(a.observations[i], b.observations[i])
  }

  ghost predicate SameVerdict(a: ScenarioResult, b: ScenarioResult) {
    && a.status == b.status && a.relations == b.relations
    && |a.coverage| == |b.coverage|
    && (forall i :: 0 <= i < |a.coverage| ==> SameCase(a.coverage[i], b.coverage[i]))
    && (forall id :: id in a.operationIds <==> id in b.operationIds)
  }

  lemma MembersDecideAggregate(a: seq<Record>, b: seq<Record>)
    requires SameMembers(a, b)
    ensures AggregateStatus(a) == AggregateStatus(b)
  {
    MembersDecideEmptiness(a, b);
    forall status ensures HasStatus(a, status) <==> HasStatus(b, status) {
      HasStatusMember(a, status);
      HasStatusMember(b, status);
    }
  }

  lemma HasStatusMember(rs: seq<Record>, status: Status)
    ensures HasStatus(rs, status) <==> exists r :: r in rs && r.status == status
  {
    if r :| r in rs && r.status == status {
      var i :| 0 <= i < |rs| && rs[i] == r;
    }
    if i :| 0 <= i < |rs| && rs[i].status == status { assert rs[i] in rs; }
  }

  lemma MembersDecideEmptiness(a: seq<Record>, b: seq<Record>)
    requires SameMembers(a, b)
    ensures a == [] <==> b == []
  {
    if a != [] { assert a[0] in b; }
    if b != [] { assert b[0] in a; }
  }

  lemma MembersDecideObservation(o: Observation, a: seq<Record>, b: seq<Record>)
    requires SameMembers(a, b)
    ensures SameObservation(JudgeObservation(o, a), JudgeObservation(o, b))
  {
    PassingMembers(a);
    PassingMembers(b);
    MembersDecideEmptiness(a, b);
    MembersDecideEmptiness(Passing(a), Passing(b));
    MembersDecideAggregate(a, b);
    MembersDecideDisagreement(Passing(a), Passing(b));
    MembersDecideFields(Passing(a), Passing(b));
    assert forall name :: name in Observed(Passing(a)) <==> name in Observed(Passing(a)).Keys;
    assert forall name :: name in Observed(Passing(b)) <==> name in Observed(Passing(b)).Keys;
  }

  lemma MembersDecideObservations(os: seq<Observation>, a: seq<Record>, b: seq<Record>)
    requires SameMembers(a, b)
    ensures forall i :: 0 <= i < |os| ==> SameObservation(Observations(os, a)[i], Observations(os, b)[i])
    ensures AllObservationsPass(Observations(os, a)) <==> AllObservationsPass(Observations(os, b))
    ensures forall s :: AnyObservation(Observations(os, a), s) <==> AnyObservation(Observations(os, b), s)
  {
    var x, y := Observations(os, a), Observations(os, b);
    forall i | 0 <= i < |os| ensures SameObservation(x[i], y[i]) {
      ObservationMembers(a, os[i].name);
      ObservationMembers(b, os[i].name);
      MembersDecideObservation(os[i], ForObservation(a, os[i].name), ForObservation(b, os[i].name));
    }
  }

  lemma MembersDecidePassing(q: Requirement, a: seq<Record>, b: seq<Record>)
    requires SameMembers(a, b)
    ensures SameMembers(Candidates(q, a), Candidates(q, b))
    ensures SameMembers(PassingDeclared(Declared(q), Candidates(q, a)), PassingDeclared(Declared(q), Candidates(q, b)))
  {
    CandidateMembers(q, a);
    CandidateMembers(q, b);
    PassingDeclaredMembers(Declared(q), Candidates(q, a));
    PassingDeclaredMembers(Declared(q), Candidates(q, b));
  }

  lemma MembersDecideCase(q: Requirement, a: seq<Record>, b: seq<Record>)
    requires SameMembers(a, b)
    ensures SameCase(JudgeCase(q, a), JudgeCase(q, b))
    ensures JudgeCase(q, a).status == Pass ==> CaseValues(q, a) == CaseValues(q, b)
  {
    MembersDecidePassing(q, a, b);
    var p, r := PassingDeclared(Declared(q), Candidates(q, a)), PassingDeclared(Declared(q), Candidates(q, b));
    MembersDecideDisagreement(p, r);
    MembersDecideFields(p, r);
    MembersDecideObservations(Declared(q), Candidates(q, a), Candidates(q, b));
    ConflictsMeanDisagreement(p);
    if Conflicts(p) == {} { MembersDecideValues(p, r); }
  }

  lemma {:induction false} MembersDecideSelected(qs: seq<Requirement>, a: seq<Record>, b: seq<Record>, id: string)
    requires SameMembers(a, b)
    ensures Selected(qs, a, id) == Selected(qs, b, id)
  {
    if qs != [] {
      MembersDecideCase(qs[|qs| - 1], a, b);
      MembersDecideSelected(qs[..|qs| - 1], a, b, id);
    }
  }

  lemma MembersDecideAdds(q: Requirement, a: seq<Record>, b: seq<Record>, id: string)
    requires SameMembers(a, b)
    ensures Adds(q, a, id) ==> Adds(q, b, id)
  {
    if Adds(q, a, id) {
      var r :| r in Candidates(q, a) && r.id == id && AddsRecord(q, a, r);
      MembersDecidePassing(q, a, b);
      MembersDecideCase(q, a, b);
      MembersDecideEmptiness(PassingDeclared(Declared(q), Candidates(q, a)),
                             PassingDeclared(Declared(q), Candidates(q, b)));
      assert r in Candidates(q, b) && AddsRecord(q, b, r);
    }
  }

  lemma MembersDecideOperations(qs: seq<Requirement>, a: seq<Record>, b: seq<Record>)
    requires SameMembers(a, b)
    ensures forall id :: id in OperationIds(qs, a) <==> id in OperationIds(qs, b)
  {
    OperationIdsMembers(qs, a);
    OperationIdsMembers(qs, b);
    forall q, id | q in qs ensures Adds(q, a, id) <==> Adds(q, b, id) {
      MembersDecideAdds(q, a, b, id);
      MembersDecideAdds(q, b, a, id);
    }
  }

  lemma MembersDecideCoverage(qs: seq<Requirement>, a: seq<Record>, b: seq<Record>)
    requires SameMembers(a, b)
    ensures forall i :: 0 <= i < |qs| ==> SameCase(Coverage(qs, a)[i], Coverage(qs, b)[i])
    ensures forall s :: AnyCase(Coverage(qs, a), s) <==> AnyCase(Coverage(qs, b), s)
  {
    var x, y := Coverage(qs, a), Coverage(qs, b);
    forall i | 0 <= i < |qs| ensures SameCase(x[i], y[i]) { MembersDecideCase(qs[i], a, b); }
    forall s ensures AnyCase(x, s) <==> AnyCase(y, s) {
      if i :| 0 <= i < |x| && x[i].status == s { assert y[i].status == s; }
      if i :| 0 <= i < |y| && y[i].status == s { assert x[i].status == s; }
    }
  }

  /** Permuting the recorded operations changes no observation, case, relation or scenario
      status, although the first value of a field wins. */
  lemma RecordOrderIrrelevant(s: Scenario, a: seq<Record>, b: seq<Record>)
    requires multiset(a) == multiset(b)
    ensures SameVerdict(Evaluate(s, a), Evaluate(s, b))
  {
    PermutationMembers(a, b);
    MembersDecideCoverage(s.requirements, a, b);
    MembersDecideOperations(s.requirements, a, b);
    forall i | 0 <= i < |s.relations| ensures Relations(s, a)[i] == Relations(s, b)[i] {
      MembersDecideSelected(s.requirements, a, b, s.relations[i].left);
      MembersDecideSelected(s.requirements, a, b, s.relations[i].right);
    }
    assert Relations(s, a) == Relations(s, b);
  }

  // ---- What the statuses mean

  function Severity(s: Status): (n: nat) {
    match s
    case Pass => 0
    case Unsupported => 1
    case Unverified => 2
    case Defect => 3
  }

  /** The scenario is as good as the worst of its cases and relations. */
  lemma ScenarioIsWorst(cs: seq<CaseResult>, rs: seq<RelationResult>)
    ensures var worst := Severity(ScenarioStatus(cs, rs));
            && (forall i :: 0 <= i < |cs| ==> Severity(cs[i].status) <= worst)
            && (forall i :: 0 <= i < |rs| ==> Severity(rs[i].status) <= worst)
            && (worst > 0 ==> || (exists i :: 0 <= i < |cs| && Severity(cs[i].status) == worst)
                              || (exists i :: 0 <= i < |rs| && Severity(rs[i].status) == worst))
  {
    var s := ScenarioStatus(cs, rs);
    forall i | 0 <= i < |cs| ensures Severity(cs[i].status) <= Severity(s) { assert AnyCase(cs, cs[i].status); }
    forall i | 0 <= i < |rs| ensures Severity(rs[i].status) <= Severity(s) { assert AnyRelation(rs, rs[i].status); }
  }

  /** An observation without a passing record proves none of its fields. */
  lemma NoPassingIsUnverified(o: Observation, rs: seq<Record>)
    requires o.fields != [] && forall r :: r in rs ==> r.status != Pass
    ensures ObservationStatus(o, rs) == Unverified
  {
    NonePassing(rs);
    ConflictsMeanDisagreement(Passing(rs));
    assert o.fields[0] !in Observed(Passing(rs));
  }

  /** A passing record of the requirement under this observation. */
  ghost predicate Proves(r: Record, q: Requirement, o: Observation, records: seq<Record>) {
    r in records && r.role == q.role && r.proofCase == q.proofCase && r.observation == o.name && r.status == Pass
  }

  ghost predicate Shown(q: Requirement, o: Observation, records: seq<Record>, field: string) {
    exists r :: Proves(r, q, o, records) && field in Values(r)
  }

  /** Every observation has a passing record, and each of its fields is shown by one. */
  ghost predicate Evidenced(q: Requirement, o: Observation, records: seq<Record>) {
    (exists r :: Proves(r, q, o, records)) && forall f :: f in o.fields ==> Shown(q, o, records, f)
  }

  lemma ProvingMembers(q: Requirement, o: Observation, records: seq<Record>)
    ensures forall r :: r in Passing(ForObservation(Candidates(q, records), o.name)) <==> Proves(r, q, o, records)
  {
    CandidateMembers(q, records);
    ObservationMembers(Candidates(q, records), o.name);
    PassingMembers(ForObservation(Candidates(q, records), o.name));
  }

  lemma ObservationPassesIff(q: Requirement, o: Observation, records: seq<Record>)
    requires !Disagree(Passing(ForObservation(Candidates(q, records), o.name)))
    ensures ObservationStatus(o, ForObservation(Candidates(q, records), o.name)) == Pass <==> Evidenced(q, o, records)
  {
    var rs := ForObservation(Candidates(q, records), o.name);
    var passing := Passing(rs);
    ProvingMembers(q, o, records);
    ConflictsMeanDisagreement(passing);
    ObservedValues(passing);
    PassingMembers(rs);
    if passing == [] { NoPassingNoPass(rs); } else { assert passing[0] in passing && passing[0] in rs; }
    forall f ensures f in Observed(passing) <==> Shown(q, o, records, f) {
      if f in Observed(passing) { var r :| r in passing && f in Values(r) && Values(r)[f] == Observed(passing)[f]; }
    }
  }

  /** A passing record contradicts what the contract expects of a field. */
  ghost predicate Mismatch(q: Requirement, records: seq<Record>) {
    exists r, i :: r in PassingDeclared(Declared(q), Candidates(q, records)) && 0 <= i < |q.expected| &&
                   q.expected[i].0 in Values(r) && Values(r)[q.expected[i].0] != q.expected[i].1
  }

  lemma MismatchIsUnexpected(q: Requirement, records: seq<Record>)
    requires !Disagree(PassingDeclared(Declared(q), Candidates(q, records)))
    ensures Unexpected(q, CaseValues(q, records)) <==> Mismatch(q, records)
  {
    var passing := PassingDeclared(Declared(q), Candidates(q, records));
    ObservedValues(passing);
    AgreedValues(passing);
    if Unexpected(q, Observed(passing)) {
      var i :| 0 <= i < |q.expected| && q.expected[i].0 in Observed(passing) &&
        Observed(passing)[q.expected[i].0] != q.expected[i].1;
      var r :| r in passing && q.expected[i].0 in Values(r) &&
        Values(r)[q.expected[i].0] == Observed(passing)[q.expected[i].0];
    }
  }

  lemma ObservationsAgree(q: Requirement, records: seq<Record>, o: Observation)
    requires o in Declared(q) && !Disagree(PassingDeclared(Declared(q), Candidates(q, records)))
    ensures !Disagree(Passing(ForObservation(Candidates(q, records), o.name)))
  {
    var own := Passing(ForObservation(Candidates(q, records), o.name));
    var all := PassingDeclared(Declared(q), Candidates(q, records));
    ProvingMembers(q, o, records);
    CandidateMembers(q, records);
    PassingDeclaredMembers(Declared(q), Candidates(q, records));
    var k :| 0 <= k < |Declared(q)| && Declared(q)[k] == o;
    assert forall r :: r in own ==> r in all;
  }

  /** A case passes exactly when its passing records agree with each other and with what the
      contract expects, and every declared observation is fully evidenced. */
  lemma CasePassesIff(q: Requirement, records: seq<Record>)
    ensures JudgeCase(q, records).status == Pass <==>
            && !Disagree(PassingDeclared(Declared(q), Candidates(q, records)))
            && !Mismatch(q, records)
            && forall o :: o in Declared(q) ==> Evidenced(q, o, records)
  {
    var candidates := Candidates(q, records);
    var passing, os := PassingDeclared(Declared(q), candidates), Observations(Declared(q), candidates);
    ConflictsMeanDisagreement(passing);
    if !Disagree(passing) {
      MismatchIsUnexpected(q, records);
      forall i | 0 <= i < |Declared(q)| ensures os[i].status == Pass <==> Evidenced(q, Declared(q)[i], records) {
        ObservationsAgree(q, records, Declared(q)[i]);
        ObservationPassesIff(q, Declared(q)[i], records);
      }
      AllPassIff(q, records, os);
    }
  }

  lemma AllPassIff(q: Requirement, records: seq<Record>, os: seq<ObservationResult>)
    requires |os| == |Declared(q)|
    requires forall i :: 0 <= i < |os| ==> (os[i].status == Pass <==> Evidenced(q, Declared(q)[i], records))
    ensures AllObservationsPass(os) <==> forall o :: o in Declared(q) ==> Evidenced(q, o, records)
  {
    if AllObservationsPass(os) {
      forall o | o in Declared(q) ensures Evidenced(q, o, records) {
        var i :| 0 <= i < |Declared(q)| && Declared(q)[i] == o;
        assert os[i].status == Pass;
      }
    } else {
      var i :| 0 <= i < |os| && os[i].status != Pass;
      assert Declared(q)[i] in Declared(q);
    }
  }
}
