/**
 Acceptance evidence of scripts/client_acceptance.py: `evaluate_scenario`, which judges the
 recorded operations, and the scenario section of `validate_bundle`, which judges a written
 record of that judgement again from the operations it names.

 Field lists are compared after sorting, so they are sets here; expected values are already
 resolved against the run's context; explanatory texts are left out.
 */
module Acceptance {
  import opened Wrappers

  datatype Status = Pass | Unsupported | Unverified | Defect

  datatype Record = Record(
    id: string,
    scenario: string,
    role: string,
    proofCase: string,
    observation: string,
    status: Status,
    extracted: map<string, Option<string>>)

  datatype Observation = Observation(name: string, fields: seq<string>)

  datatype Requirement = Requirement(
    id: string,
    role: string,
    proofCase: string,
    evidence: seq<string>,
    observations: seq<Observation>,
    expected: seq<(string, string)>)

  datatype Relation = Relation(kind: string, left: string, right: string, fields: seq<string>)

  datatype Scenario = Scenario(id: string, requirements: seq<Requirement>, relations: seq<Relation>)

  function Declared(q: Requirement): (r: seq<Observation>) {
    if q.observations != [] then q.observations else [Observation("response", q.evidence)]
  }

  // ---- Merging extracted evidence, first value wins

  function Values(r: Record): (m: map<string, string>) {
    map name | name in r.extracted && r.extracted[name].Some? :: r.extracted[name].value
  }

  function Observed(rs: seq<Record>): (m: map<string, string>) {
    if rs == [] then map[] else Values(rs[|rs| - 1]) + Observed(rs[..|rs| - 1])
  }

  function Clashes(observed: map<string, string>, r: Record): (names: set<string>) {
    set name | name in observed && name in Values(r) && observed[name] != Values(r)[name]
  }

  function Conflicts(rs: seq<Record>): (names: set<string>) {
    if rs == [] then {}
    else Conflicts(rs[..|rs| - 1]) + Clashes(Observed(rs[..|rs| - 1]), rs[|rs| - 1])
  }

  method MergeEvidence(rs: seq<Record>) returns (observed: map<string, string>, conflicts: set<string>)
    ensures observed == Observed(rs) && conflicts == Conflicts(rs)
  {
    observed, conflicts := map[], {};
    for i := 0 to |rs|
      invariant observed == Observed(rs[..i]) && conflicts == Conflicts(rs[..i])
    {
      assert rs[..i + 1][..i] == rs[..i];
      conflicts := conflicts + Clashes(observed, rs[i]);
      observed := Values(rs[i]) + observed;
    }
    assert rs[..|rs|] == rs;
  }

  /** Two records give different values for one field. */
  ghost predicate Disagree(rs: seq<Record>) {
    exists r, q, name :: r in rs && q in rs && Differ(r, q, name)
  }

  predicate Differ(r: Record, q: Record, name: string) {
    name in Values(r) && name in Values(q) && Values(r)[name] != Values(q)[name]
  }

  lemma {:induction false} ObservedValues(rs: seq<Record>)
    ensures forall name :: name in Observed(rs) ==>
              exists r :: r in rs && name in Values(r) && Values(r)[name] == Observed(rs)[name]
    ensures forall r, name :: r in rs && name in Values(r) ==> name in Observed(rs)
  {
    if rs != [] {
      var n := |rs| - 1;
      ObservedValues(rs[..n]);
      assert rs == rs[..n] + [rs[n]];
      forall name | name in Observed(rs)
        ensures exists r :: r in rs && name in Values(r) && Values(r)[name] == Observed(rs)[name]
      {
        if name in Observed(rs[..n]) {
          var r :| r in rs[..n] && name in Values(r) && Values(r)[name] == Observed(rs[..n])[name];
          assert r in rs;
        } else {
          assert rs[n] in rs;
        }
      }
    }
  }

  lemma AgreedValues(rs: seq<Record>)
    requires !Disagree(rs)
    ensures forall r, name :: r in rs && name in Values(r) ==>
              name in Observed(rs) && Observed(rs)[name] == Values(r)[name]
  {
    ObservedValues(rs);
    forall r, name | r in rs && name in Values(r) ensures Observed(rs)[name] == Values(r)[name] {
      var q :| q in rs && name in Values(q) && Values(q)[name] == Observed(rs)[name];
      assert !Differ(r, q, name);
    }
  }

  /** Conflicts are found exactly when two records disagree, although only the first value of
      a field is kept to compare with. */
  lemma {:induction false} ConflictsMeanDisagreement(rs: seq<Record>)
    ensures Conflicts(rs) != {} <==> Disagree(rs)
  {
    if rs != [] {
      var n := |rs| - 1;
      var before, last := rs[..n], rs[n];
      assert rs == before + [last];
      ConflictsMeanDisagreement(before);
      if Disagree(before) {
        var r, q, name :| r in before && q in before && Differ(r, q, name);
        assert r in rs && q in rs;
      } else {
        LastClashes(before, last);
        SplitDisagreement(before, last);
      }
    }
  }

  lemma SplitDisagreement(before: seq<Record>, last: Record)
    requires !Disagree(before)
    ensures Disagree(before + [last]) <==> exists r, name :: r in before && Differ(r, last, name)
  {
    var rs := before + [last];
    assert last in rs;
    if r, q, name :| r in rs && q in rs && Differ(r, q, name) {
      if r in before {
        assert q == last || q in before;
      } else {
        assert r == last && Differ(q, last, name);
      }
    }
  }

  lemma LastClashes(before: seq<Record>, last: Record)
    requires !Disagree(before)
    ensures Clashes(Observed(before), last) != {} <==> exists r, name :: r in before && Differ(r, last, name)
  {
    AgreedValues(before);
    ObservedValues(before);
    if name :| name in Clashes(Observed(before), last) {
      var r :| r in before && name in Values(r) && Values(r)[name] == Observed(before)[name];
      assert Differ(r, last, name);
    }
    if r, name :| r in before && Differ(r, last, name) {
      assert name in Clashes(Observed(before), last);
    }
  }

  // ---- Judging one observation

  function Filter(rs: seq<Record>, p: Record -> bool): (r: seq<Record>) {
    if rs == [] then []
    else
      var rest := Filter(rs[..|rs| - 1], p);
      if p(rs[|rs| - 1]) then rest + [rs[|rs| - 1]] else rest
  }

  lemma {:induction false} FilterMembers(rs: seq<Record>, p: Record -> bool)
    ensures forall r :: r in Filter(rs, p) <==> r in rs && p(r)
  {
    if rs != [] {
      FilterMembers(rs[..|rs| - 1], p);
      assert rs == rs[..|rs| - 1] + [rs[|rs| - 1]];
    }
  }

  function Candidates(q: Requirement, rs: seq<Record>): (r: seq<Record>) {
    Filter(rs, (x: Record) => x.role == q.role && x.proofCase == q.proofCase)
  }

  function ForObservation(rs: seq<Record>, name: string): (r: seq<Record>) {
    Filter(rs, (x: Record) => x.observation == name)
  }

  function Passing(rs: seq<Record>): (r: seq<Record>) {
    Filter(rs, (x: Record) => x.status == Pass)
  }

  function Ids(rs: seq<Record>): (r: seq<string>) {
    seq(|rs|, i requires 0 <= i < |rs| => rs[i].id)
  }

  predicate HasStatus(rs: seq<Record>, s: Status) {
    exists i :: 0 <= i < |rs| && rs[i].status == s
  }

  function AggregateStatus(rs: seq<Record>): (s: Status) {
    if rs == [] then Unverified
    else if HasStatus(rs, Defect) then Defect
    else if HasStatus(rs, Unverified) then Unverified
    else if HasStatus(rs, Unsupported) then Unsupported
    else Pass
  }

  predicate Covers(m: map<string, string>, fields: seq<string>) {
    forall i :: 0 <= i < |fields| ==> fields[i] in m
  }

  datatype ObservationResult = ObservationResult(name: string, status: Status, operationIds: seq<string>,
                                                 fields: set<string>)

  function ObservationStatus(o: Observation, candidates: seq<Record>): (s: Status) {
    var passing := Passing(candidates);
    if Conflicts(passing) != {} then Defect
    else if candidates == [] then Unverified
    else if !Covers(Observed(passing), o.fields) then Unverified
    else if passing != [] then Pass
    else AggregateStatus(candidates)
  }

  function JudgeObservation(o: Observation, candidates: seq<Record>): (r: ObservationResult) {
    var passing := Passing(candidates);
    ObservationResult(o.name, ObservationStatus(o, candidates),
                      if passing != [] then Ids(passing) else Ids(candidates),
                      Observed(passing).Keys)
  }

  // ---- Judging one requirement

  datatype CaseResult = CaseResult(
    requirement: string, role: string, proofCase: string, status: Status, operationIds: seq<string>,
    fields: set<string>,
    observations: seq<ObservationResult>)

  /** The passing records of all declared observations, in declaration order. */
  function PassingDeclared(os: seq<Observation>, candidates: seq<Record>): (r: seq<Record>) {
    if os == [] then []
    else PassingDeclared(os[..|os| - 1], candidates) + Passing(ForObservation(candidates, os[|os| - 1].name))
  }

  function Observations(os: seq<Observation>, candidates: seq<Record>): (r: seq<ObservationResult>) {
    seq(|os|, i requires 0 <= i < |os| => JudgeObservation(os[i], ForObservation(candidates, os[i].name)))
  }

  predicate Unexpected(q: Requirement, m: map<string, string>) {
    exists i :: 0 <= i < |q.expected| && q.expected[i].0 in m && m[q.expected[i].0] != q.expected[i].1
  }

  predicate AnyObservation(os: seq<ObservationResult>, s: Status) {
    exists i :: 0 <= i < |os| && os[i].status == s
  }

  predicate AllObservationsPass(os: seq<ObservationResult>) {
    forall i :: 0 <= i < |os| ==> os[i].status == Pass
  }

  function CaseStatus(q: Requirement, passing: seq<Record>, os: seq<ObservationResult>): (s: Status) {
    if Conflicts(passing) != {} then Defect
    else if Unexpected(q, Observed(passing)) then Defect
    else if AllObservationsPass(os) then Pass
    else if AnyObservation(os, Defect) then Defect
    else if AnyObservation(os, Unverified) then Unverified
    else Unsupported
  }

  function JudgeCase(q: Requirement, records: seq<Record>): (r: CaseResult) {
    var candidates := Candidates(q, records);
    var os := Observations(Declared(q), candidates);
    var passing := PassingDeclared(Declared(q), candidates);
    CaseResult(q.id, q.role, q.proofCase, CaseStatus(q, passing, os),
               if passing != [] then Ids(passing) else Ids(candidates),
               Observed(passing).Keys, os)
  }

  /** The evidence a passing case contributes to relations. */
  function CaseValues(q: Requirement, records: seq<Record>): (m: map<string, string>) {
    Observed(PassingDeclared(Declared(q), Candidates(q, records)))
  }

  // ---- Judging relations and the scenario

  datatype RelationResult = RelationResult(relation: Relation, status: Status)

  function RelationStatus(rel: Relation, left: Option<map<string, string>>,
                          right: Option<map<string, string>>): (s: Status) {
    if left.None? || right.None? then Unverified
    else if !Covers(left.value, rel.fields) || !Covers(right.value, rel.fields) then Unverified
    else
      var same := forall i :: 0 <= i < |rel.fields| ==> left.value[rel.fields[i]] == right.value[rel.fields[i]];
      if rel.kind == "equal" then (if same then Pass else Defect)
      else if rel.kind == "distinct" then (if same then Defect else Pass)
      else Defect
  }

  /** The values of the requirement if its case passed. */
  function Selected(qs: seq<Requirement>, records: seq<Record>, id: string): (r: Option<map<string, string>>) {
    if qs == [] then None
    else
      var q := qs[|qs| - 1];
      if q.id == id && JudgeCase(q, records).status == Pass then Some(CaseValues(q, records))
      else Selected(qs[..|qs| - 1], records, id)
  }

  datatype ScenarioResult = ScenarioResult(
    status: Status, operationIds: seq<string>, coverage: seq<CaseResult>, relations: seq<RelationResult>)

  function Coverage(qs: seq<Requirement>, records: seq<Record>): (r: seq<CaseResult>) {
    seq(|qs|, i requires 0 <= i < |qs| => JudgeCase(qs[i], records))
  }

  function Relations(s: Scenario, records: seq<Record>): (r: seq<RelationResult>) {
    seq(|s.relations|, i requires 0 <= i < |s.relations| =>
      RelationResult(s.relations[i],
                     RelationStatus(s.relations[i], Selected(s.requirements, records, s.relations[i].left),
                                    Selected(s.requirements, records, s.relations[i].right))))
  }

  function NewIds(ids: seq<string>, known: seq<string>): (r: seq<string>) {
    if ids == [] then known
    else
      var rest := NewIds(ids[..|ids| - 1], known);
      if ids[|ids| - 1] in rest then rest else rest + [ids[|ids| - 1]]
  }

  /** One case adds its passing operations if it passed, and all its candidates if none passes. */
  function AddIds(before: seq<string>, status: Status, candidates: seq<Record>,
                  passing: seq<Record>): (r: seq<string>) {
    var after := if status == Pass then before + Ids(passing) else before;
    if passing == [] then NewIds(Ids(candidates), after) else after
  }

  /** Ids of the operations behind the scenario. */
  function OperationIds(qs: seq<Requirement>, records: seq<Record>): (r: seq<string>) {
    if qs == [] then []
    else
      var q := qs[|qs| - 1];
      var candidates := Candidates(q, records);
      AddIds(OperationIds(qs[..|qs| - 1], records), JudgeCase(q, records).status, candidates,
             PassingDeclared(Declared(q), candidates))
  }

  predicate AnyCase(cs: seq<CaseResult>, s: Status) {
    exists i :: 0 <= i < |cs| && cs[i].status == s
  }

  predicate AnyRelation(rs: seq<RelationResult>, s: Status) {
    exists i :: 0 <= i < |rs| && rs[i].status == s
  }

  function ScenarioStatus(cs: seq<CaseResult>, rs: seq<RelationResult>): (s: Status) {
    if AnyCase(cs, Defect) || AnyRelation(rs, Defect) then Defect
    else if AnyCase(cs, Unverified) || AnyRelation(rs, Unverified) then Unverified
    else if AnyCase(cs, Unsupported) || AnyRelation(rs, Unsupported) then Unsupported
    else Pass
  }

  function Evaluate(s: Scenario, records: seq<Record>): (r: ScenarioResult) {
    var coverage, relations := Coverage(s.requirements, records), Relations(s, records);
    ScenarioResult(ScenarioStatus(coverage, relations), OperationIds(s.requirements, records), coverage, relations)
  }

  function Lookup(m: map<string, map<string, string>>, id: string): Option<map<string, string>> {
    if id in m then Some(m[id]) else None
  }

  /** `selected` holds the values of exactly the passing cases. */
  ghost predicate Indexes(selected: map<string, map<string, string>>, qs: seq<Requirement>, records: seq<Record>) {
    forall id :: Lookup(selected, id) == Selected(qs, records, id)
  }

  lemma IndexNext(selected: map<string, map<string, string>>, qs: seq<Requirement>, q: Requirement,
                  records: seq<Record>)
    requires Indexes(selected, qs, records)
    ensures JudgeCase(q, records).status == Pass ==>
              Indexes(selected[q.id := CaseValues(q, records)], qs + [q], records)
    ensures JudgeCase(q, records).status != Pass ==> Indexes(selected, qs + [q], records)
  {
    assert (qs + [q])[..|qs|] == qs;
    var next := if JudgeCase(q, records).status == Pass then selected[q.id := CaseValues(q, records)] else selected;
    forall id ensures Lookup(next, id) == Selected(qs + [q], records, id) {
      assert Lookup(selected, id) == Selected(qs, records, id);
    }
  }

  /** The result of one requirement and the evidence of its passing records. */
  method EvaluateCase(q: Requirement, records: seq<Record>)
    returns (result: CaseResult, candidates: seq<Record>, passing: seq<Record>, aggregate: map<string, string>)
    ensures result == JudgeCase(q, records) && candidates == Candidates(q, records)
    ensures passing == PassingDeclared(Declared(q), candidates) && aggregate == CaseValues(q, records)
  {
    candidates := Candidates(q, records);
    var os;
    passing, os := EvaluateObservations(Declared(q), candidates);
    var observed, _ := MergeEvidence(passing);
    aggregate := observed;
    result := CaseResult(q.id, q.role, q.proofCase, CaseStatus(q, passing, os),
                         if passing != [] then Ids(passing) else Ids(candidates), aggregate.Keys, os);
  }

  /** The loop over the declared observations. */
  method EvaluateObservations(declared: seq<Observation>, candidates: seq<Record>)
    returns (passing: seq<Record>, os: seq<ObservationResult>)
    ensures passing == PassingDeclared(declared, candidates) && os == Observations(declared, candidates)
  {
    passing, os := [], [];
    for i := 0 to |declared|
      invariant passing == PassingDeclared(declared[..i], candidates)
      invariant |os| == i
      invariant forall j :: 0 <= j < i ==>
                  os[j] == JudgeObservation(declared[j], ForObservation(candidates, declared[j].name))
    {
      var own := ForObservation(candidates, declared[i].name);
      os := os + [JudgeObservation(declared[i], own)];
      assert declared[..i + 1][..i] == declared[..i];
      passing := passing + Passing(own);
    }
    assert declared[..|declared|] == declared;
  }

  ghost predicate Evaluated(coverage: seq<CaseResult>, operationIds: seq<string>,
                            selected: map<string, map<string, string>>, qs: seq<Requirement>, records: seq<Record>)
  {
    coverage == Coverage(qs, records) && operationIds == OperationIds(qs, records) && Indexes(selected, qs, records)
  }

  /** The loop over requirements, with its `selected` index. */
  method EvaluateCases(qs: seq<Requirement>, records: seq<Record>)
    returns (coverage: seq<CaseResult>, operationIds: seq<string>, selected: map<string, map<string, string>>)
    ensures Evaluated(coverage, operationIds, selected, qs, records)
  {
    assert qs[..0] == [];
    selected, coverage, operationIds := map[], [], [];
    for i := 0 to |qs|
      invariant Evaluated(coverage, operationIds, selected, qs[..i], records)
    {
      var q := qs[i];
      assert qs[..i + 1] == qs[..i] + [q];
      EvaluatedNext(coverage, operationIds, selected, qs[..i], q, records);
      var result, candidates, passing, aggregate := EvaluateCase(q, records);
      if result.status == Pass { selected := selected[q.id := aggregate]; }
      operationIds := AddIds(operationIds, result.status, candidates, passing);
      coverage := coverage + [result];
    }
    assert qs[..|qs|] == qs;
  }

  lemma EvaluatedNext(coverage: seq<CaseResult>, operationIds: seq<string>, selected: map<string, map<string, string>>,
                      qs: seq<Requirement>, q: Requirement, records: seq<Record>)
    requires Evaluated(coverage, operationIds, selected, qs, records)
    ensures var result, candidates := JudgeCase(q, records), Candidates(q, records);
            Evaluated(coverage + [result],
                      AddIds(operationIds, result.status, candidates, PassingDeclared(Declared(q), candidates)),
                      if result.status == Pass then selected[q.id := CaseValues(q, records)] else selected,
                      qs + [q], records)
  {
    IndexNext(selected, qs, q, records);
    CoverageNext(qs, q, records);
    OperationIdsNext(qs, q, records);
  }

  lemma OperationIdsNext(qs: seq<Requirement>, q: Requirement, records: seq<Record>)
    ensures var candidates := Candidates(q, records);
            OperationIds(qs + [q], records) ==
            AddIds(OperationIds(qs, records), JudgeCase(q, records).status, candidates,
                   PassingDeclared(Declared(q), candidates))
  {
    assert (qs + [q])[..|qs|] == qs;
  }

  lemma CoverageNext(qs: seq<Requirement>, q: Requirement, records: seq<Record>)
    ensures Coverage(qs + [q], records) == Coverage(qs, records) + [JudgeCase(q, records)]
  {
  }

  method EvaluateScenario(s: Scenario, records: seq<Record>) returns (r: ScenarioResult)
    ensures r == Evaluate(s, records)
  {
    var coverage, operationIds, selected := EvaluateCases(s.requirements, records);
    var relations: seq<RelationResult> := [];
    for i := 0 to |s.relations|
      invariant |relations| == i && forall j :: 0 <= j < i ==> relations[j] == Relations(s, records)[j]
    {
      var rel := s.relations[i];
      assert Lookup(selected, rel.left) == Selected(s.requirements, records, rel.left);
      assert Lookup(selected, rel.right) == Selected(s.requirements, records, rel.right);
      relations :=
        relations + [RelationResult(rel, RelationStatus(rel, Lookup(selected, rel.left), Lookup(selected, rel.right)))];
    }
    assert relations == Relations(s, records);
    return ScenarioResult(ScenarioStatus(coverage, relations), operationIds, coverage, relations);
  }
}
