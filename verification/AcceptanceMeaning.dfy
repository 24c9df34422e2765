/**
 What every verdict means, said of the recorded operations alone: which records are evidence for
 a requirement, what they show, and how the statuses of observations, cases and relations follow
 from that; and what a validated passing bundle is known to rest on.
 */
module AcceptanceMeaning {
  import opened Wrappers
  import opened Acceptance
  import opened AcceptanceAgreement

  // ---- Evidence

  /** The requirement declares an observation; one without observations expects a response. */
  ghost predicate Declares(q: Requirement, name: string, fields: seq<string>) {
    if q.observations == [] then name == "response" && fields == q.evidence
    else exists i :: 0 <= i < |q.observations| && q.observations[i].name == name && q.observations[i].fields == fields
  }

  /** The record was made for this observation of the requirement. */
  ghost predicate MadeFor(r: Record, q: Requirement, name: string, records: seq<Record>) {
    r in records && r.role == q.role && r.proofCase == q.proofCase && r.observation == name
  }

  ghost predicate Gives(r: Record, field: string, value: string) {
    field in r.extracted && r.extracted[field] == Some(value)
  }

  /** A passing record of the observation gives the field this value. */
  ghost predicate ShownBy(q: Requirement, name: string, records: seq<Record>, field: string, value: string) {
    exists r :: MadeFor(r, q, name, records) && r.status == Pass && Gives(r, field, value)
  }

  /** A passing record of some declared observation gives the field this value. */
  ghost predicate ShowsValue(q: Requirement, records: seq<Record>, field: string, value: string) {
    exists name, fields :: Declares(q, name, fields) && ShownBy(q, name, records, field, value)
  }

  ghost predicate AnyMade(q: Requirement, name: string, records: seq<Record>, status: Status) {
    exists r :: MadeFor(r, q, name, records) && r.status == status
  }

  lemma DeclaredIff(q: Requirement, o: Observation)
    ensures o in Declared(q) <==> Declares(q, o.name, o.fields)
  {
    if q.observations == [] {
      assert Declared(q)[0] == Observation("response", q.evidence);
    } else if Declares(q, o.name, o.fields) {
      var i :| 0 <= i < |q.observations| && q.observations[i].name == o.name && q.observations[i].fields == o.fields;
      assert q.observations[i] == o;
    }
  }

  lemma ValuesAre(r: Record, field: string, value: string)
    ensures field in Values(r) && Values(r)[field] == value <==> Gives(r, field, value)
  {
  }

  // ---- One observation

  ghost function Own(q: Requirement, name: string, records: seq<Record>): (rs: seq<Record>) {
    ForObservation(Candidates(q, records), name)
  }

  lemma OwnMembers(q: Requirement, name: string, records: seq<Record>)
    ensures forall r :: r in Own(q, name, records) <==> MadeFor(r, q, name, records)
    ensures forall r :: r in Passing(Own(q, name, records)) <==> MadeFor(r, q, name, records) && r.status == Pass
  {
    CandidateMembers(q, records);
    ObservationMembers(Candidates(q, records), name);
    PassingMembers(Own(q, name, records));
  }

  /** Passing records of one observation disagree. */
  ghost predicate OwnDisagreement(q: Requirement, name: string, records: seq<Record>) {
    exists f, v, w :: v != w && ShownBy(q, name, records, f, v) && ShownBy(q, name, records, f, w)
  }

  ghost predicate Lacks(q: Requirement, name: string, fields: seq<string>, records: seq<Record>) {
    exists f :: f in fields && forall v :: !ShownBy(q, name, records, f, v)
  }

  /** Passing records disagree; or no field is asked for, none passes and one failed. */
  ghost predicate ObservationFails(q: Requirement, name: string, fields: seq<string>, records: seq<Record>) {
    || OwnDisagreement(q, name, records)
    || (fields == [] && !AnyMade(q, name, records, Pass) && AnyMade(q, name, records, Defect))
  }

  /** No record was made, or a field is not shown, or no field is asked for, none passes and one
      was not verified. */
  ghost predicate ObservationUnproven(q: Requirement, name: string, fields: seq<string>, records: seq<Record>) {
    || (forall r :: !MadeFor(r, q, name, records))
    || Lacks(q, name, fields, records)
    || (fields == [] && !AnyMade(q, name, records, Pass) && AnyMade(q, name, records, Unverified))
  }

  lemma DisagreeIff(rs: seq<Record>, q: Requirement, name: string, records: seq<Record>)
    requires forall r :: r in rs <==> MadeFor(r, q, name, records) && r.status == Pass
    ensures Disagree(rs) <==> OwnDisagreement(q, name, records)
  {
    if Disagree(rs) {
      var r, p, f :| r in rs && p in rs && Differ(r, p, f);
      assert Gives(r, f, Values(r)[f]) && Gives(p, f, Values(p)[f]);
      assert ShownBy(q, name, records, f, Values(r)[f]) && ShownBy(q, name, records, f, Values(p)[f]);
    }
    if f, v, w :| v != w && ShownBy(q, name, records, f, v) && ShownBy(q, name, records, f, w) {
      var r :| MadeFor(r, q, name, records) && r.status == Pass && Gives(r, f, v);
      var p :| MadeFor(p, q, name, records) && p.status == Pass && Gives(p, f, w);
      assert Differ(r, p, f);
    }
  }

  lemma CoversIff(rs: seq<Record>, q: Requirement, name: string, fields: seq<string>, records: seq<Record>)
    requires forall r :: r in rs <==> MadeFor(r, q, name, records) && r.status == Pass
    ensures Covers(Observed(rs), fields) <==> !Lacks(q, name, fields, records)
  {
    ObservedValues(rs);
    forall f ensures f in Observed(rs) <==> exists v :: ShownBy(q, name, records, f, v) {
      if f in Observed(rs) {
        var r :| r in rs && f in Values(r) && Values(r)[f] == Observed(rs)[f];
        assert Gives(r, f, Values(r)[f]);
        assert ShownBy(q, name, records, f, Values(r)[f]);
      }
      if v :| ShownBy(q, name, records, f, v) {
        var r :| MadeFor(r, q, name, records) && r.status == Pass && Gives(r, f, v);
        assert r in rs && f in Values(r);
      }
    }
    if Covers(Observed(rs), fields) {
      forall f | f in fields ensures exists v :: ShownBy(q, name, records, f, v) {
        var i :| 0 <= i < |fields| && fields[i] == f;
      }
    } else {
      var i :| 0 <= i < |fields| && fields[i] !in Observed(rs);
      assert fields[i] in fields;
    }
  }

  /** The verdict on an observation, from the records. */
  lemma ObservationStatusMeans(q: Requirement, o: Observation, records: seq<Record>)
    ensures var s := ObservationStatus(o, Own(q, o.name, records));
            var fails := ObservationFails(q, o.name, o.fields, records);
            var unproven := ObservationUnproven(q, o.name, o.fields, records);
            && (s == Defect <==> fails)
            && (s == Unverified <==> !fails && unproven)
            && (s == Pass <==> !fails && !unproven && AnyMade(q, o.name, records, Pass))
            && (s == Unsupported <==> !fails && !unproven && !AnyMade(q, o.name, records, Pass))
  {
    var rs := Own(q, o.name, records);
    var passing := Passing(rs);
    OwnMembers(q, o.name, records);
    ConflictsMeanDisagreement(passing);
    DisagreeIff(passing, q, o.name, records);
    CoversIff(passing, q, o.name, o.fields, records);
    MadeIff(q, o.name, records);
    if passing == [] && o.fields != [] { NoneShown(q, o, records); }
  }

  lemma MadeIff(q: Requirement, name: string, records: seq<Record>)
    ensures Own(q, name, records) == [] <==> forall r :: !MadeFor(r, q, name, records)
    ensures Passing(Own(q, name, records)) == [] <==> !AnyMade(q, name, records, Pass)
    ensures forall s :: HasStatus(Own(q, name, records), s) <==> AnyMade(q, name, records, s)
  {
    var rs := Own(q, name, records);
    OwnMembers(q, name, records);
    if rs != [] { assert rs[0] in rs; }
    if Passing(rs) != [] { assert Passing(rs)[0] in Passing(rs); }
    forall s ensures HasStatus(rs, s) <==> AnyMade(q, name, records, s) { HasStatusMember(rs, s); }
  }

  lemma NoneShown(q: Requirement, o: Observation, records: seq<Record>)
    requires !AnyMade(q, o.name, records, Pass) && o.fields != []
    ensures Lacks(q, o.name, o.fields, records)
  {
    assert o.fields[0] in o.fields;
    assert forall v :: !ShownBy(q, o.name, records, o.fields[0], v);
  }

  // ---- One case

  /** Passing records of the case disagree on a field. */
  ghost predicate CaseDisagreement(q: Requirement, records: seq<Record>) {
    exists f, v, w :: v != w && ShowsValue(q, records, f, v) && ShowsValue(q, records, f, w)
  }

  /** A passing record shows another value than the contract expects. */
  ghost predicate CaseMismatch(q: Requirement, records: seq<Record>) {
    exists i, v :: 0 <= i < |q.expected| && v != q.expected[i].1 && ShowsValue(q, records, q.expected[i].0, v)
  }

  ghost predicate AnyFails(q: Requirement, records: seq<Record>) {
    exists name, fields :: Declares(q, name, fields) && ObservationFails(q, name, fields, records)
  }

  ghost predicate AnyUnproven(q: Requirement, records: seq<Record>) {
    exists name, fields :: Declares(q, name, fields) && ObservationUnproven(q, name, fields, records)
  }

  ghost predicate AllPassed(q: Requirement, records: seq<Record>) {
    forall name, fields :: Declares(q, name, fields) ==> AnyMade(q, name, records, Pass)
  }

  ghost function Evidence(q: Requirement, records: seq<Record>): (rs: seq<Record>) {
    PassingDeclared(Declared(q), Candidates(q, records))
  }

  lemma ShowsIff(q: Requirement, records: seq<Record>, f: string, v: string)
    ensures ShowsValue(q, records, f, v) <==> exists r :: r in Evidence(q, records) && Gives(r, f, v)
  {
    CandidateMembers(q, records);
    PassingDeclaredMembers(Declared(q), Candidates(q, records));
    if r :| r in Evidence(q, records) && Gives(r, f, v) {
      var i :| 0 <= i < |Declared(q)| && Declared(q)[i].name == r.observation;
      DeclaredIff(q, Declared(q)[i]);
      assert Declared(q)[i] in Declared(q);
      assert Declares(q, r.observation, Declared(q)[i].fields) && ShownBy(q, r.observation, records, f, v);
    }
    if name, fields :| Declares(q, name, fields) && ShownBy(q, name, records, f, v) {
      var r :| MadeFor(r, q, name, records) && r.status == Pass && Gives(r, f, v);
      DeclaredIff(q, Observation(name, fields));
      var i :| 0 <= i < |Declared(q)| && Declared(q)[i] == Observation(name, fields);
      assert Names(Declared(q), r.observation);
      assert r in Evidence(q, records);
    }
  }

  lemma CaseDisagreementIff(q: Requirement, records: seq<Record>)
    ensures Disagree(Evidence(q, records)) <==> CaseDisagreement(q, records)
  {
    var rs := Evidence(q, records);
    if r, p, f :| r in rs && p in rs && Differ(r, p, f) {
      assert Gives(r, f, Values(r)[f]) && Gives(p, f, Values(p)[f]);
      ShowsIff(q, records, f, Values(r)[f]);
      ShowsIff(q, records, f, Values(p)[f]);
    }
    if f, v, w :| v != w && ShowsValue(q, records, f, v) && ShowsValue(q, records, f, w) {
      ShowsIff(q, records, f, v);
      ShowsIff(q, records, f, w);
      var r :| r in rs && Gives(r, f, v);
      var p :| p in rs && Gives(p, f, w);
      assert Differ(r, p, f);
    }
  }

  /** Without disagreement the merged evidence is what the records show. */
  lemma MergedIff(q: Requirement, records: seq<Record>, f: string, v: string)
    requires !CaseDisagreement(q, records)
    ensures f in CaseValues(q, records) && CaseValues(q, records)[f] == v <==> ShowsValue(q, records, f, v)
  {
    var rs := Evidence(q, records);
    CaseDisagreementIff(q, records);
    ObservedValues(rs);
    AgreedValues(rs);
    ShowsIff(q, records, f, v);
    if f in CaseValues(q, records) && CaseValues(q, records)[f] == v {
      var r :| r in rs && f in Values(r) && Values(r)[f] == v;
      assert Gives(r, f, v);
    }
    if r :| r in rs && Gives(r, f, v) { assert f in Values(r); }
  }

  lemma UnexpectedIff(q: Requirement, records: seq<Record>)
    requires !CaseDisagreement(q, records)
    ensures Unexpected(q, CaseValues(q, records)) <==> CaseMismatch(q, records)
  {
    var m := CaseValues(q, records);
    if i :| 0 <= i < |q.expected| && q.expected[i].0 in m && m[q.expected[i].0] != q.expected[i].1 {
      MergedIff(q, records, q.expected[i].0, m[q.expected[i].0]);
    }
    if i, v :| 0 <= i < |q.expected| && v != q.expected[i].1 && ShowsValue(q, records, q.expected[i].0, v) {
      MergedIff(q, records, q.expected[i].0, v);
    }
  }

  ghost function Judged(q: Requirement, records: seq<Record>): (os: seq<ObservationResult>) {
    Observations(Declared(q), Candidates(q, records))
  }

  lemma ObservationsMean(q: Requirement, records: seq<Record>)
    ensures AnyObservation(Judged(q, records), Defect) <==> AnyFails(q, records)
    ensures !AnyFails(q, records) ==> (AnyObservation(Judged(q, records), Unverified) <==> AnyUnproven(q, records))
    ensures !AnyFails(q, records) && !AnyUnproven(q, records) ==>
              (AllObservationsPass(Judged(q, records)) <==> AllPassed(q, records))
  {
    var os := Judged(q, records);
    forall i | 0 <= i < |os|
      ensures Declares(q, Declared(q)[i].name, Declared(q)[i].fields)
      ensures MeansAt(q, Declared(q)[i].name, Declared(q)[i].fields, records, os[i].status)
    {
      assert Declared(q)[i] in Declared(q);
      DeclaredIff(q, Declared(q)[i]);
      ObservationStatusMeans(q, Declared(q)[i], records);
    }
    forall name, fields | Declares(q, name, fields)
      ensures exists i :: 0 <= i < |os| && MeansAt(q, name, fields, records, os[i].status)
    {
      DeclaredIff(q, Observation(name, fields));
      var i :| 0 <= i < |Declared(q)| && Declared(q)[i] == Observation(name, fields);
      assert MeansAt(q, name, fields, records, os[i].status);
    }
  }

  ghost predicate MeansAt(q: Requirement, name: string, fields: seq<string>, records: seq<Record>, s: Status) {
    var fails, unproven := ObservationFails(q, name, fields, records), ObservationUnproven(q, name, fields, records);
    && (s == Defect <==> fails)
    && (s == Unverified <==> !fails && unproven)
    && (s == Pass <==> !fails && !unproven && AnyMade(q, name, records, Pass))
  }

  /** The verdict on a case, from the records: a defect if passing records disagree, contradict
      the contract, or an observation fails; else unverified if an observation is unproven; else
      a pass if each observation has a passing record, and unsupported otherwise. */
  lemma CaseStatusMeans(q: Requirement, records: seq<Record>)
    ensures var s := JudgeCase(q, records).status;
            var defect := CaseDisagreement(q, records) || CaseMismatch(q, records) || AnyFails(q, records);
            var unproven := AnyUnproven(q, records);
            && (s == Defect <==> defect)
            && (s == Unverified <==> !defect && unproven)
            && (s == Pass <==> !defect && !unproven && AllPassed(q, records))
            && (s == Unsupported <==> !defect && !unproven && !AllPassed(q, records))
  {
    ConflictsMeanDisagreement(Evidence(q, records));
    CaseDisagreementIff(q, records);
    if !CaseDisagreement(q, records) { UnexpectedIff(q, records); }
    ObservationsMean(q, records);
    var os := Judged(q, records);
    if AllObservationsPass(os) {
      assert !AnyObservation(os, Defect) && !AnyObservation(os, Unverified);
    }
  }

  // ---- Relations

  /** Both sides show every field of the relation. */
  ghost predicate BothShow(rel: Relation, left: Requirement, right: Requirement, records: seq<Record>) {
    forall f :: f in rel.fields ==>
      (exists v :: ShowsValue(left, records, f, v)) && exists v :: ShowsValue(right, records, f, v)
  }

  /** The two sides show a field with different values. */
  ghost predicate Apart(f: string, left: Requirement, right: Requirement, records: seq<Record>) {
    exists v, w :: v != w && ShowsValue(left, records, f, v) && ShowsValue(right, records, f, w)
  }

  ghost predicate Kept(rel: Relation, left: Requirement, right: Requirement, records: seq<Record>) {
    || (rel.kind == "equal" && forall f :: f in rel.fields ==> !Apart(f, left, right, records))
    || (rel.kind == "distinct" && exists f :: f in rel.fields && Apart(f, left, right, records))
  }

  lemma SideCovers(q: Requirement, fields: seq<string>, records: seq<Record>)
    requires !CaseDisagreement(q, records)
    ensures Covers(CaseValues(q, records), fields) <==>
            forall f :: f in fields ==> exists v :: ShowsValue(q, records, f, v)
  {
    var m := CaseValues(q, records);
    if Covers(m, fields) {
      forall f | f in fields ensures exists v :: ShowsValue(q, records, f, v) {
        var i :| 0 <= i < |fields| && fields[i] == f;
        MergedIff(q, records, f, m[f]);
      }
    }
    if forall f :: f in fields ==> exists v :: ShowsValue(q, records, f, v) {
      forall i | 0 <= i < |fields| ensures fields[i] in m {
        assert fields[i] in fields;
        var v :| ShowsValue(q, records, fields[i], v);
        MergedIff(q, records, fields[i], v);
      }
    }
  }

  lemma SidesDiffer(f: string, left: Requirement, right: Requirement, records: seq<Record>)
    requires !CaseDisagreement(left, records) && !CaseDisagreement(right, records)
    requires f in CaseValues(left, records) && f in CaseValues(right, records)
    ensures CaseValues(left, records)[f] != CaseValues(right, records)[f] <==> Apart(f, left, right, records)
  {
    var v, w := CaseValues(left, records)[f], CaseValues(right, records)[f];
    MergedIff(left, records, f, v);
    MergedIff(right, records, f, w);
    if x, y :| x != y && ShowsValue(left, records, f, x) && ShowsValue(right, records, f, y) {
      MergedIff(left, records, f, x);
      MergedIff(right, records, f, y);
    }
  }

  lemma RelationKept(rel: Relation, left: Requirement, right: Requirement, records: seq<Record>)
    requires !CaseDisagreement(left, records) && !CaseDisagreement(right, records)
    ensures var s := RelationStatus(rel, Some(CaseValues(left, records)), Some(CaseValues(right, records)));
            && (s == Unverified <==> !BothShow(rel, left, right, records))
            && (s == Pass <==> BothShow(rel, left, right, records) && Kept(rel, left, right, records))
            && (s == Defect <==> BothShow(rel, left, right, records) && !Kept(rel, left, right, records))
  {
    var a, b := CaseValues(left, records), CaseValues(right, records);
    SideCovers(left, rel.fields, records);
    SideCovers(right, rel.fields, records);
    if Covers(a, rel.fields) && Covers(b, rel.fields) {
      forall i | 0 <= i < |rel.fields|
        ensures a[rel.fields[i]] != b[rel.fields[i]] <==> Apart(rel.fields[i], left, right, records)
      {
        SidesDiffer(rel.fields[i], left, right, records);
      }
    }
  }

  /** The verdict on a relation, from the records: unverified unless both cases pass and passing
      records show every field on both sides; then a pass if all values are equal, or for a
      distinctness relation if some value differs, and a defect otherwise. */
  lemma RelationStatusMeans(s: Scenario, records: seq<Record>, i: nat, l: nat, r: nat)
    requires DistinctIds(s.requirements) && i < |s.relations| && l < |s.requirements| && r < |s.requirements|
    requires s.requirements[l].id == s.relations[i].left && s.requirements[r].id == s.relations[i].right
    ensures var rel, status := s.relations[i], Evaluate(s, records).relations[i].status;
            var left, right := s.requirements[l], s.requirements[r];
            var both := JudgeCase(left, records).status == Pass && JudgeCase(right, records).status == Pass;
            && Evaluate(s, records).relations[i].relation == rel
            && (status == Pass <==> both && BothShow(rel, left, right, records) && Kept(rel, left, right, records))
            && (status == Defect <==> both && BothShow(rel, left, right, records) && !Kept(rel, left, right, records))
            && (status == Unverified <==> !both || !BothShow(rel, left, right, records))
  {
    var left, right := s.requirements[l], s.requirements[r];
    SelectedForRequirement(s.requirements, records, l);
    SelectedForRequirement(s.requirements, records, r);
    CaseStatusMeans(left, records);
    CaseStatusMeans(right, records);
    if JudgeCase(left, records).status == Pass && JudgeCase(right, records).status == Pass {
      RelationKept(s.relations[i], left, right, records);
    }
  }

  // ---- What a validated bundle rests on

  /** An operation named by a result, as the index of operations knows it. */
  ghost predicate NamedIn(ids: seq<string>, byId: Index, r: Record) {
    exists i :: 0 <= i < |ids| && ids[i] in byId && byId[ids[i]] == r
  }

  /** A named passing operation gives the field this value. */
  ghost predicate NamedGives(ids: seq<string>, byId: Index, field: string, value: string) {
    exists r :: NamedIn(ids, byId, r) && r.status == Pass && Gives(r, field, value)
  }

  /** Every named id is known, and the listed fields are those that named passing operations give. */
  ghost predicate Honest(ids: seq<string>, fields: set<string>, byId: Index) {
    && (forall i :: 0 <= i < |ids| ==> ids[i] in byId)
    && forall f :: f in fields <==> exists v :: NamedGives(ids, byId, f, v)
  }

  /** No two named passing operations disagree. */
  ghost predicate Consistent(ids: seq<string>, byId: Index) {
    forall f, v, w :: NamedGives(ids, byId, f, v) && NamedGives(ids, byId, f, w) ==> v == w
  }

  /** A passing result names operations, all of them passing, that give all these fields. */
  ghost predicate Backed(ids: seq<string>, byId: Index, fields: seq<string>) {
    && ids != [] && (forall r :: NamedIn(ids, byId, r) ==> r.status == Pass)
    && forall f :: f in fields ==> exists v :: NamedGives(ids, byId, f, v)
  }

  lemma ResolvedMembers(byId: Index, ids: seq<string>)
    requires Known(byId, ids)
    ensures forall r :: r in Resolve(byId, ids) <==> NamedIn(ids, byId, r)
    ensures forall r :: r in Passing(Resolve(byId, ids)) <==> NamedIn(ids, byId, r) && r.status == Pass
    ensures (forall i :: 0 <= i < |Resolve(byId, ids)| ==> Resolve(byId, ids)[i] in Resolve(byId, ids))
  {
    var rs := Resolve(byId, ids);
    PassingMembers(rs);
    forall r ensures r in rs <==> NamedIn(ids, byId, r) {
      if r in rs {
        var i :| 0 <= i < |rs| && rs[i] == r;
        assert ids[i] in byId && byId[ids[i]] == r;
      }
      if i :| 0 <= i < |ids| && ids[i] in byId && byId[ids[i]] == r { assert rs[i] == r; }
    }
  }

  lemma NamedValues(byId: Index, ids: seq<string>)
    requires Known(byId, ids)
    ensures forall f :: f in Observed(Passing(Resolve(byId, ids))) <==> exists v :: NamedGives(ids, byId, f, v)
    ensures Conflicts(Passing(Resolve(byId, ids))) == {} <==> Consistent(ids, byId)
  {
    var rs := Passing(Resolve(byId, ids));
    ResolvedMembers(byId, ids);
    ObservedValues(rs);
    ConflictsMeanDisagreement(rs);
    forall f ensures f in Observed(rs) <==> exists v :: NamedGives(ids, byId, f, v) {
      if f in Observed(rs) {
        var r :| r in rs && f in Values(r) && Values(r)[f] == Observed(rs)[f];
        assert Gives(r, f, Values(r)[f]);
        assert NamedGives(ids, byId, f, Values(r)[f]);
      }
      if v :| NamedGives(ids, byId, f, v) {
        var r :| NamedIn(ids, byId, r) && r.status == Pass && Gives(r, f, v);
        assert f in Values(r);
      }
    }
    NamedDisagreement(byId, ids);
  }

  lemma NamedDisagreement(byId: Index, ids: seq<string>)
    requires Known(byId, ids)
    ensures Disagree(Passing(Resolve(byId, ids))) <==> !Consistent(ids, byId)
  {
    var rs := Passing(Resolve(byId, ids));
    ResolvedMembers(byId, ids);
    if r, p, f :| r in rs && p in rs && Differ(r, p, f) {
      assert Gives(r, f, Values(r)[f]) && Gives(p, f, Values(p)[f]);
      assert NamedGives(ids, byId, f, Values(r)[f]) && NamedGives(ids, byId, f, Values(p)[f]);
    }
    if f, v, w :| NamedGives(ids, byId, f, v) && NamedGives(ids, byId, f, w) && v != w {
      var r :| NamedIn(ids, byId, r) && r.status == Pass && Gives(r, f, v);
      var p :| NamedIn(ids, byId, p) && p.status == Pass && Gives(p, f, w);
      assert Differ(r, p, f);
    }
  }

  lemma BackedWhen(byId: Index, ids: seq<string>, fields: seq<string>)
    requires Known(byId, ids) && Resolve(byId, ids) != [] && AllPass(Resolve(byId, ids))
    requires Covers(Observed(Passing(Resolve(byId, ids))), fields)
    ensures Backed(ids, byId, fields)
  {
    ResolvedMembers(byId, ids);
    NamedValues(byId, ids);
    forall f | f in fields ensures exists v :: NamedGives(ids, byId, f, v) {
      var i :| 0 <= i < |fields| && fields[i] == f;
    }
  }

  /** The record of an observation is honest about a declared observation, names only its
      operations, and if it passes is backed by consistent operations. */
  ghost predicate SoundObservation(q: Requirement, o: ObservationResult, byId: Index) {
    && Honest(o.operationIds, o.fields, byId)
    && (forall r :: NamedIn(o.operationIds, byId, r) ==> r.observation == o.name)
    && exists fields :: Declares(q, o.name, fields) &&
                        (o.status == Pass ==> Backed(o.operationIds, byId, fields) && Consistent(o.operationIds, byId))
  }

  lemma ObservationIsSound(q: Requirement, o: ObservationResult, byId: Index)
    requires ObservationValid(q, o, byId)
    ensures SoundObservation(q, o, byId)
  {
    ResolvedMembers(byId, o.operationIds);
    NamedValues(byId, o.operationIds);
    var fields := FieldsOf(Declared(q), o.name);
    FieldsAreDeclared(Declared(q), o.name);
    DeclaredIff(q, Observation(o.name, fields));
    if o.status == Pass { BackedWhen(byId, o.operationIds, fields); }
    var rs := Resolve(byId, o.operationIds);
    forall r | NamedIn(o.operationIds, byId, r) ensures r.observation == o.name {
      var i :| 0 <= i < |rs| && rs[i] == r;
    }
  }

  lemma {:induction false} FieldsAreDeclared(os: seq<Observation>, name: string)
    requires Names(os, name)
    ensures Observation(name, FieldsOf(os, name)) in os
  {
    var n := |os| - 1;
    if os[n].name == name {
      assert os[n] == Observation(name, FieldsOf(os, name));
    } else {
      FieldsAreDeclared(os[..n], name);
    }
  }

  /** The record of a case is honest, names only operations of its scenario, role and case, which
      are consistent, has an observation for each declared one, each of them sound, and if it
      passes is backed for all evidence fields with every observation passing. */
  ghost predicate SoundCase(s: Scenario, q: Requirement, c: CaseResult, byId: Index) {
    && c.role == q.role && c.proofCase == q.proofCase
    && Honest(c.operationIds, c.fields, byId) && Consistent(c.operationIds, byId)
    && (forall r :: NamedIn(c.operationIds, byId, r) ==>
          r.scenario == s.id && r.role == q.role && r.proofCase == q.proofCase)
    && (forall o :: o in c.observations ==> SoundObservation(q, o, byId))
    && (forall name, fields :: Declares(q, name, fields) ==> exists o :: o in c.observations && o.name == name)
    && (c.status == Pass ==>
          Backed(c.operationIds, byId, q.evidence) && forall o :: o in c.observations ==> o.status == Pass)
  }

  lemma CaseIsSound(s: Scenario, q: Requirement, c: CaseResult, byId: Index)
    requires CaseValid(s, q, c, byId)
    ensures SoundCase(s, q, c, byId)
  {
    ResolvedMembers(byId, c.operationIds);
    NamedValues(byId, c.operationIds);
    if c.status == Pass { BackedWhen(byId, c.operationIds, q.evidence); }
    var rs := Resolve(byId, c.operationIds);
    forall r | NamedIn(c.operationIds, byId, r) ensures BelongsTo(r, s, q) {
      var i :| 0 <= i < |rs| && rs[i] == r;
    }
    forall o | o in c.observations ensures SoundObservation(q, o, byId) && (c.status == Pass ==> o.status == Pass) {
      var i :| 0 <= i < |c.observations| && c.observations[i] == o;
      ObservationIsSound(q, o, byId);
    }
    forall name, fields | Declares(q, name, fields) ensures exists o :: o in c.observations && o.name == name {
      ObservationNamed(q, c.observations, name, fields);
    }
  }

  lemma ObservationNamed(q: Requirement, os: seq<ObservationResult>, name: string, fields: seq<string>)
    requires ObservationNames(q, os) && Declares(q, name, fields)
    ensures exists o :: o in os && o.name == name
  {
    DeclaredIff(q, Observation(name, fields));
    var i :| 0 <= i < |Declared(q)| && Declared(q)[i] == Observation(name, fields);
    assert name in DeclaredNames(Declared(q));
    assert name in ResultNames(os);
    var k :| 0 <= k < |os| && os[k].name == name;
    assert os[k] in os;
  }

  /** A validated bundle has a case for every requirement and no other, each of them sound; if it
      passes, all its cases and relations do, and it names operations, all of them passing. */
  lemma ValidatedIsSound(s: Scenario, r: ScenarioResult, byId: Index)
    requires ScenarioValid(s, r, byId)
    ensures forall c :: c in r.coverage ==>
              exists q :: q in s.requirements && q.id == c.requirement && SoundCase(s, q, c, byId)
    ensures forall q :: q in s.requirements ==> exists c :: c in r.coverage && c.requirement == q.id
    ensures r.status == Pass ==>
              && (forall c :: c in r.coverage ==> c.status == Pass)
              && (forall x :: x in r.relations ==> x.status == Pass)
              && r.operationIds != [] && forall x :: NamedIn(r.operationIds, byId, x) ==> x.status == Pass
  {
    forall c | c in r.coverage
      ensures exists q :: q in s.requirements && q.id == c.requirement && SoundCase(s, q, c, byId)
      ensures r.status == Pass ==> c.status == Pass
    {
      var i :| 0 <= i < |r.coverage| && r.coverage[i] == c;
      CaseIsSound(s, RequirementFor(s.requirements, c.requirement), c, byId);
    }
    forall q | q in s.requirements ensures exists c :: c in r.coverage && c.requirement == q.id {
      RequirementCovered(s, r.coverage, q);
    }
    ResolvedMembers(byId, r.operationIds);
    var rs := Resolve(byId, r.operationIds);
    if r.status == Pass {
      forall x | NamedIn(r.operationIds, byId, x) ensures x.status == Pass { var i :| 0 <= i < |rs| && rs[i] == x; }
    }
  }

  lemma RequirementCovered(s: Scenario, cs: seq<CaseResult>, q: Requirement)
    requires CoverageNamesAll(s, cs) && q in s.requirements
    ensures exists c :: c in cs && c.requirement == q.id
  {
    var i :| 0 <= i < |s.requirements| && s.requirements[i] == q;
    assert q.id in RequirementNames(s.requirements);
    assert q.id in CaseNames(cs);
    var k :| 0 <= k < |cs| && cs[k].requirement == q.id;
    assert cs[k] in cs;
  }

  /** A validated relation that passes rests on two passing cases whose named operations show every
      field, all with equal values or, for distinctness, some with different ones. */
  lemma ValidatedRelationHolds(s: Scenario, r: ScenarioResult, byId: Index, i: nat)
    requires ScenarioValid(s, r, byId) && i < |s.relations| && r.relations[i].status == Pass
    ensures r.relations[i].relation == s.relations[i]
    ensures exists left, right ::
              && left in r.coverage && right in r.coverage
              && left.requirement == s.relations[i].left && right.requirement == s.relations[i].right
              && left.status == Pass && right.status == Pass
              && NamedRelation(s.relations[i], left.operationIds, right.operationIds, byId)
  {
    var rel := s.relations[i];
    assert RelationValid(r.relations[i], rel, r.coverage, byId);
    var left, right := CaseFor(r.coverage, rel.left), CaseFor(r.coverage, rel.right);
    NamedRelationHolds(s, rel, left, right, byId);
  }

  ghost predicate NamedApart(f: string, left: seq<string>, right: seq<string>, byId: Index) {
    exists v, w :: v != w && NamedGives(left, byId, f, v) && NamedGives(right, byId, f, w)
  }

  ghost predicate NamedRelation(rel: Relation, left: seq<string>, right: seq<string>, byId: Index) {
    && (forall f :: f in rel.fields ==>
          (exists v :: NamedGives(left, byId, f, v)) && exists v :: NamedGives(right, byId, f, v))
    && (rel.kind == "equal" ==> forall f :: f in rel.fields ==> ValuesEqual(f, left, right, byId))
    && (rel.kind == "distinct" ==> exists f :: f in rel.fields && NamedApart(f, left, right, byId))
  }

  /** A value of the field is given on both sides. */
  ghost predicate ValuesEqual(f: string, left: seq<string>, right: seq<string>, byId: Index) {
    exists v :: NamedGives(left, byId, f, v) && NamedGives(right, byId, f, v)
  }

  lemma NamedRelationHolds(s: Scenario, rel: Relation, left: CaseResult, right: CaseResult, byId: Index)
    requires Known(byId, left.operationIds) && Known(byId, right.operationIds)
    requires RelationHolds(rel, Observed(Passing(Resolve(byId, left.operationIds))),
                           Observed(Passing(Resolve(byId, right.operationIds))))
    ensures NamedRelation(rel, left.operationIds, right.operationIds, byId)
  {
    var a, b := left.operationIds, right.operationIds;
    var x, y := Observed(Passing(Resolve(byId, a))), Observed(Passing(Resolve(byId, b)));
    forall f | f in rel.fields
      ensures f in x && f in y && NamedGives(a, byId, f, x[f]) && NamedGives(b, byId, f, y[f])
    {
      var i :| 0 <= i < |rel.fields| && rel.fields[i] == f;
      ObservedIsGiven(byId, a, f);
      ObservedIsGiven(byId, b, f);
    }
    if rel.kind == "equal" {
      forall f | f in rel.fields ensures ValuesEqual(f, a, b, byId) {
        var i :| 0 <= i < |rel.fields| && rel.fields[i] == f;
      }
    }
    if rel.kind == "distinct" {
      var i :| 0 <= i < |rel.fields| && x[rel.fields[i]] != y[rel.fields[i]];
      assert rel.fields[i] in rel.fields;
      assert NamedApart(rel.fields[i], a, b, byId);
    }
  }

  lemma ObservedIsGiven(byId: Index, ids: seq<string>, f: string)
    requires Known(byId, ids) && f in Observed(Passing(Resolve(byId, ids)))
    ensures NamedGives(ids, byId, f, Observed(Passing(Resolve(byId, ids)))[f])
  {
    var rs := Passing(Resolve(byId, ids));
    ResolvedMembers(byId, ids);
    ObservedValues(rs);
    var r :| r in rs && f in Values(r) && Values(r)[f] == Observed(rs)[f];
    assert Gives(r, f, Observed(rs)[f]);
  }

  // ---- What a case reports

  /** The rest of a case's record: whose it is, the fields that passing records show, and the ids of
      the passing records, or of all records of the case if none passes. */
  lemma CaseReports(q: Requirement, records: seq<Record>)
    ensures var c := JudgeCase(q, records);
            && c.requirement == q.id && c.role == q.role && c.proofCase == q.proofCase
            && (forall f :: f in c.fields <==> exists v :: ShowsValue(q, records, f, v))
            && (forall id :: id in c.operationIds <==>
                  exists r :: r in records && r.id == id && r.role == q.role && r.proofCase == q.proofCase &&
                              (Evidence(q, records) == [] || r in Evidence(q, records)))
            && (forall r :: r in Evidence(q, records) <==>
                  exists name, fields :: Declares(q, name, fields) && MadeFor(r, q, name, records) && r.status == Pass)
  {
    var c, rs := JudgeCase(q, records), Evidence(q, records);
    CandidateMembers(q, records);
    PassingDeclaredMembers(Declared(q), Candidates(q, records));
    EvidenceMembers(q, records);
    FieldsShown(q, records);
    forall id ensures id in c.operationIds <==>
      exists r :: r in records && r.id == id && r.role == q.role && r.proofCase == q.proofCase && (rs == [] || r in rs)
    {
      IdsAre(rs, id);
      IdsAre(Candidates(q, records), id);
    }
  }

  lemma IdsAre(rs: seq<Record>, id: string)
    ensures id in Ids(rs) <==> exists r :: r in rs && r.id == id
  {
    if id in Ids(rs) {
      var i :| 0 <= i < |Ids(rs)| && Ids(rs)[i] == id;
      assert rs[i] in rs;
    }
    if r :| r in rs && r.id == id {
      var i :| 0 <= i < |rs| && rs[i] == r;
      assert Ids(rs)[i] == id;
    }
  }

  lemma EvidenceMembers(q: Requirement, records: seq<Record>)
    ensures forall r :: r in Evidence(q, records) <==>
              exists name, fields :: Declares(q, name, fields) && MadeFor(r, q, name, records) && r.status == Pass
  {
    CandidateMembers(q, records);
    PassingDeclaredMembers(Declared(q), Candidates(q, records));
    forall r ensures r in Evidence(q, records) <==>
      exists name, fields :: Declares(q, name, fields) && MadeFor(r, q, name, records) && r.status == Pass
    {
      if i :| 0 <= i < |Declared(q)| && Declared(q)[i].name == r.observation {
        assert Declared(q)[i] in Declared(q);
        DeclaredIff(q, Declared(q)[i]);
        assert Declares(q, r.observation, Declared(q)[i].fields);
      }
      if name, fields :| Declares(q, name, fields) && MadeFor(r, q, name, records) && r.status == Pass {
        DeclaredIff(q, Observation(name, fields));
        var i :| 0 <= i < |Declared(q)| && Declared(q)[i] == Observation(name, fields);
        assert Names(Declared(q), r.observation);
      }
    }
  }

  lemma FieldsShown(q: Requirement, records: seq<Record>)
    ensures forall f :: f in JudgeCase(q, records).fields <==> exists v :: ShowsValue(q, records, f, v)
  {
    var rs := Evidence(q, records);
    ObservedValues(rs);
    forall f ensures f in Observed(rs) <==> exists v :: ShowsValue(q, records, f, v) {
      if f in Observed(rs) {
        var r :| r in rs && f in Values(r) && Values(r)[f] == Observed(rs)[f];
        assert Gives(r, f, Values(r)[f]);
        ShowsIff(q, records, f, Values(r)[f]);
      }
      if v :| ShowsValue(q, records, f, v) {
        ShowsIff(q, records, f, v);
        var r :| r in rs && Gives(r, f, v);
        assert f in Values(r);
      }
    }
  }
}
