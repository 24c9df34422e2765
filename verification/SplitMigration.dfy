/**
 Planning the split of one mixed snapshot: reading the operator's file map
 (`read_legacy_migration_spec`, file kind), checking that it covers the restored tree
 exactly (`validate_restored_prefix_coverage`), and grouping the files into one
 replacement per retained message lineage and per protected class
 (`migrate_legacy_restic_copy`).
 */
module SplitMigration {
  import opened Wrappers
  import opened ControlledCopies

  // ---- The operator's file map

  datatype RawEntry = RawEntry(path: Path, contentClass: string, resource: string, generation: string)

  datatype SpecEntry = SpecEntry(path: Path, kind: ContentClass)

  predicate RawEntryOk(raw: RawEntry) {
    && raw.path != ""
    && (raw.contentClass == "message" || raw.contentClass == "session_credential" || raw.contentClass == "account_key")
    && raw.resource != "" && raw.generation != ""
    && (raw.contentClass == "message" ==> raw.resource != "*" && raw.generation != "*")
  }

  /** An entry is well formed exactly when it has a path, one of the three classes and a lineage,
      which for messages is exact. */
  lemma RawEntryOkIff(raw: RawEntry)
    ensures RawEntryOk(raw) <==>
            && raw.path != "" && raw.contentClass in {"message", "session_credential", "account_key"}
            && "" !in {raw.resource, raw.generation}
            && (raw.contentClass == "message" ==> "*" !in {raw.resource, raw.generation})
  {
  }

  function Normalize(raw: RawEntry): (e: SpecEntry)
    requires RawEntryOk(raw)
  {
    SpecEntry(raw.path,
              if raw.contentClass == "message" then Message(Lineage(raw.resource, raw.generation))
              else if raw.contentClass == "session_credential" then SessionCredential
              else AccountKey)
  }

  ghost predicate DistinctPaths(entries: seq<SpecEntry>) {
    forall i, j :: 0 <= i < j < |entries| ==> entries[i].path != entries[j].path
  }

  ghost predicate RawSpecOk(complete: bool, raw: seq<RawEntry>) {
    && complete && raw != []
    && (forall i :: 0 <= i < |raw| ==> RawEntryOk(raw[i]))
    && (forall i, j :: 0 <= i < j < |raw| ==> raw[i].path != raw[j].path)
  }

  /** The entry keeps the path and the class, and for messages the exact lineage. */
  ghost predicate ReadsAs(raw: RawEntry, e: SpecEntry) {
    && e.path == raw.path
    && (raw.contentClass == "message" <==> e.kind.Message?)
    && (raw.contentClass == "message" ==> e.kind.lineage == Lineage(raw.resource, raw.generation))
    && (raw.contentClass == "session_credential" <==> e.kind == SessionCredential)
    && (raw.contentClass == "account_key" <==> e.kind == AccountKey)
  }

  method ReadSpec(complete: bool, raw: seq<RawEntry>) returns (r: Result<seq<SpecEntry>>)
    ensures r.Ok? <==> RawSpecOk(complete, raw)
    ensures r.Ok? ==> |r.value| == |raw| && DistinctPaths(r.value)
    ensures r.Ok? ==> forall i :: 0 <= i < |raw| ==> ReadsAs(raw[i], r.value[i])
  {
    if !complete { return Refused("specification is not exhaustive"); }
    if raw == [] { return Refused("entries are required"); }
    var entries: seq<SpecEntry> := [];
    var seen: set<Path> := {};
    for i := 0 to |raw|
      invariant |entries| == i
      invariant forall j :: 0 <= j < i ==> RawEntryOk(raw[j]) && entries[j] == Normalize(raw[j])
      invariant forall p :: p in seen <==> exists j :: 0 <= j < i && raw[j].path == p
      invariant forall j, k :: 0 <= j < k < i ==> raw[j].path != raw[k].path
    {
      if raw[i].path in seen { return Refused("entry path is duplicated"); }
      if !RawEntryOk(raw[i]) { return Refused("entry is invalid"); }
      seen := seen + {raw[i].path};
      entries := entries + [Normalize(raw[i])];
    }
    return Ok(entries);
  }

  // ---- Coverage of the restored tree

  /** Where a mapped file lies in the restored tree. */
  function FullPath(prefix: string, path: Path): (q: Path) {
    if prefix == "" then path else prefix + "/" + path
  }

  lemma FullPathInjective(prefix: string, p: Path, q: Path)
    ensures FullPath(prefix, p) == FullPath(prefix, q) <==> p == q
  {
    if prefix != "" {
      assert FullPath(prefix, p)[|prefix| + 1..] == p;
      assert FullPath(prefix, q)[|prefix| + 1..] == q;
    }
  }

  /** The map names every file of the tree and nothing else. */
  predicate Covers(tree: map<Path, File>, prefix: string, entries: seq<SpecEntry>) {
    tree.Keys == set i | 0 <= i < |entries| :: FullPath(prefix, entries[i].path)
  }

  lemma CoveredPath(tree: map<Path, File>, prefix: string, entries: seq<SpecEntry>, i: nat)
    requires Covers(tree, prefix, entries) && i < |entries|
    ensures FullPath(prefix, entries[i].path) in tree
  {
  }

  // ---- Replacements

  /** One replacement snapshot: the files of one class, with the prefix stripped. */
  datatype Part = Part(kind: ContentClass, files: map<Path, File>) {
    function Tag(): string {
      match kind
      case Message(_) => MESSAGE_TAG
      case SessionCredential => SESSION_TAG
      case AccountKey => KEYS_TAG
    }
    function StoreOf(): Store {
      match kind
      case Message(_) => ResticSnapshot
      case SessionCredential => SessionCredentials
      case AccountKey => AccountKeys
    }
  }

  predicate HasKind(entries: seq<SpecEntry>, kind: ContentClass) {
    exists i :: 0 <= i < |entries| && entries[i].kind == kind
  }

  function OfKind(entries: seq<SpecEntry>, kind: ContentClass): (r: seq<SpecEntry>) {
    if entries == [] then []
    else
      var rest := OfKind(entries[..|entries| - 1], kind);
      if entries[|entries| - 1].kind == kind then rest + [entries[|entries| - 1]] else rest
  }

  lemma {:induction false} OfKindMembers(entries: seq<SpecEntry>, kind: ContentClass)
    ensures forall e :: e in OfKind(entries, kind) <==> e in entries && e.kind == kind
  {
    if entries != [] {
      OfKindMembers(entries[..|entries| - 1], kind);
      assert entries == entries[..|entries| - 1] + [entries[|entries| - 1]];
    }
  }

  /** The files of a replacement are exactly the tree's files mapped to its class. */
  ghost predicate PartOf(tree: map<Path, File>, prefix: string, entries: seq<SpecEntry>, part: Part) {
    && (forall p :: p in part.files ==>
          && FullPath(prefix, p) in tree && part.files[p] == tree[FullPath(prefix, p)]
          && SpecEntry(p, part.kind) in entries)
    && (forall i :: 0 <= i < |entries| && entries[i].kind == part.kind ==> entries[i].path in part.files)
  }

  /** `parts` is a split of the tree that drops `target`: one non-empty part per retained class. */
  ghost predicate IsSplit(tree: map<Path, File>, prefix: string, entries: seq<SpecEntry>, target: Lineage,
                          parts: seq<Part>) {
    && (forall k :: 0 <= k < |parts| ==>
          && parts[k].kind != Message(target)
          && HasKind(entries, parts[k].kind)
          && PartOf(tree, prefix, entries, parts[k]))
    && (forall j, k :: 0 <= j < k < |parts| ==> parts[j].kind != parts[k].kind)
    && (forall i :: 0 <= i < |entries| && entries[i].kind != Message(target) ==>
          exists k :: 0 <= k < |parts| && parts[k].kind == entries[i].kind)
  }

  /** Copies the listed files out of the restored tree. */
  method CopyFiles(tree: map<Path, File>, prefix: string, entries: seq<SpecEntry>, kind: ContentClass)
    returns (part: Part)
    requires Covers(tree, prefix, entries)
    ensures part.kind == kind && PartOf(tree, prefix, entries, part)
  {
    var group := OfKind(entries, kind);
    OfKindMembers(entries, kind);
    var files: map<Path, File> := map[];
    for i := 0 to |group|
      invariant forall p :: p in files ==>
                  && FullPath(prefix, p) in tree && files[p] == tree[FullPath(prefix, p)]
                  && SpecEntry(p, kind) in entries
      invariant forall j :: 0 <= j < i ==> group[j].path in files
    {
      assert group[i] in group && group[i] in entries && group[i].kind == kind;
      var k: nat :| k < |entries| && entries[k] == group[i];
      CoveredPath(tree, prefix, entries, k);
      files := files[group[i].path := tree[FullPath(prefix, group[i].path)]];
    }
    part := Part(kind, files);
    forall i | 0 <= i < |entries| && entries[i].kind == kind ensures entries[i].path in files {
      assert entries[i] in group;
    }
  }

  /** First appearance order of the message lineages, then of the protected classes. */
  method GroupKinds(entries: seq<SpecEntry>) returns (messages: seq<ContentClass>, protected: seq<ContentClass>)
    ensures forall k :: k in messages <==> k.Message? && HasKind(entries, k)
    ensures forall k :: k in protected <==> !k.Message? && HasKind(entries, k)
    ensures DistinctKinds(messages) && DistinctKinds(protected)
  {
    messages, protected := [], [];
    for i := 0 to |entries|
      invariant forall k :: k in messages <==> k.Message? && HasKind(entries[..i], k)
      invariant forall k :: k in protected <==> !k.Message? && HasKind(entries[..i], k)
      invariant DistinctKinds(messages) && DistinctKinds(protected)
    {
      var kind := entries[i].kind;
      HasKindStep(entries, i);
      if kind.Message? {
        if kind !in messages { messages := messages + [kind]; }
      } else {
        if kind !in protected { protected := protected + [kind]; }
      }
    }
    assert entries[..|entries|] == entries;
  }

  lemma HasKindStep(entries: seq<SpecEntry>, i: nat)
    requires i < |entries|
    ensures forall k :: HasKind(entries[..i + 1], k) <==> HasKind(entries[..i], k) || entries[i].kind == k
  {
    assert entries[..i + 1] == entries[..i] + [entries[i]];
    forall k ensures HasKind(entries[..i + 1], k) <==> HasKind(entries[..i], k) || entries[i].kind == k {
      if HasKind(entries[..i], k) {
        var j :| 0 <= j < i && entries[..i][j].kind == k;
        assert entries[..i + 1][j].kind == k;
      }
      if entries[i].kind == k { assert entries[..i + 1][i].kind == k; }
    }
  }

  ghost predicate CanSplit(tree: map<Path, File>, prefix: string, entries: seq<SpecEntry>, target: Lineage) {
    && Covers(tree, prefix, entries)
    && HasKind(entries, Message(target))
    && exists i :: 0 <= i < |entries| && entries[i].kind != Message(target)
  }

  /** The kinds to be replaced: all but the removed lineage, in order. */
  function Retained(kinds: seq<ContentClass>, target: Lineage): (r: seq<ContentClass>) {
    if kinds == [] then []
    else
      var rest := Retained(kinds[..|kinds| - 1], target);
      if kinds[|kinds| - 1] == Message(target) then rest else rest + [kinds[|kinds| - 1]]
  }

  ghost predicate DistinctKinds(kinds: seq<ContentClass>) {
    forall i, j :: 0 <= i < j < |kinds| ==> kinds[i] != kinds[j]
  }

  lemma {:induction false} RetainedMembers(kinds: seq<ContentClass>, target: Lineage)
    ensures forall k :: k in Retained(kinds, target) <==> k in kinds && k != Message(target)
    ensures DistinctKinds(kinds) ==> DistinctKinds(Retained(kinds, target))
  {
    if kinds != [] {
      var n := |kinds| - 1;
      RetainedMembers(kinds[..n], target);
      assert kinds == kinds[..n] + [kinds[n]];
      if DistinctKinds(kinds) { assert kinds[n] !in kinds[..n]; }
    }
  }

  /** One replacement per retained kind, in order. */
  method CopyKinds(tree: map<Path, File>, prefix: string, entries: seq<SpecEntry>, kinds: seq<ContentClass>,
                   target: Lineage)
    returns (parts: seq<Part>)
    requires Covers(tree, prefix, entries)
    ensures |parts| == |Retained(kinds, target)|
    ensures forall k :: 0 <= k < |parts| ==>
              parts[k].kind == Retained(kinds, target)[k] && PartOf(tree, prefix, entries, parts[k])
  {
    parts := [];
    for i := 0 to |kinds|
      invariant |parts| == |Retained(kinds[..i], target)|
      invariant forall k :: 0 <= k < |parts| ==>
                  parts[k].kind == Retained(kinds[..i], target)[k] && PartOf(tree, prefix, entries, parts[k])
    {
      assert kinds[..i + 1][..i] == kinds[..i];
      if kinds[i] != Message(target) {
        var part := CopyFiles(tree, prefix, entries, kinds[i]);
        parts := parts + [part];
      }
    }
    assert kinds[..|kinds|] == kinds;
  }

  method PlanSplit(tree: map<Path, File>, prefix: string, entries: seq<SpecEntry>, target: Lineage)
    returns (r: Result<seq<Part>>)
    ensures r.Ok? <==> CanSplit(tree, prefix, entries, target)
    ensures r.Ok? ==> r.value != [] && IsSplit(tree, prefix, entries, target, r.value)
  {
    if !Covers(tree, prefix, entries) { return Refused("snapshot is not enumerated exactly"); }
    if !HasKind(entries, Message(target)) { return Refused("removed message lineage is not mapped"); }
    var messages, protected := GroupKinds(entries);
    RetainedMembers(messages, target);
    RetainedMembers(protected, target);
    assert forall kind :: kind in Retained(messages, target) + Retained(protected, target) <==>
                            HasKind(entries, kind) && kind != Message(target);
    var messageParts := CopyKinds(tree, prefix, entries, messages, target);
    var protectedParts := CopyKinds(tree, prefix, entries, protected, target);
    var parts := messageParts + protectedParts;
    JoinParts(tree, prefix, entries, messageParts, protectedParts, Retained(messages, target),
              Retained(protected, target));
    KindsOfSplit(tree, prefix, entries, target, parts, Retained(messages, target) + Retained(protected, target));
    if parts == [] { return Refused("no protected replacement"); }
    return Ok(parts);
  }

  lemma JoinParts(tree: map<Path, File>, prefix: string, entries: seq<SpecEntry>, a: seq<Part>, b: seq<Part>,
                  kinds: seq<ContentClass>, others: seq<ContentClass>)
    requires |a| == |kinds| && |b| == |others| && DistinctKinds(kinds) && DistinctKinds(others)
    requires forall k :: 0 <= k < |a| ==> a[k].kind == kinds[k] && PartOf(tree, prefix, entries, a[k])
    requires forall k :: 0 <= k < |b| ==> b[k].kind == others[k] && PartOf(tree, prefix, entries, b[k])
    requires forall k :: k in kinds ==> k.Message?
    requires forall k :: k in others ==> !k.Message?
    ensures |a + b| == |kinds + others| && DistinctKinds(kinds + others)
    ensures forall k :: 0 <= k < |a + b| ==>
              (a + b)[k].kind == (kinds + others)[k] && PartOf(tree, prefix, entries, (a + b)[k])
  {
    forall i, j | 0 <= i < |kinds| && 0 <= j < |others| ensures kinds[i] != others[j] {
      assert kinds[i] in kinds && others[j] in others;
    }
  }

  lemma KindsOfSplit(tree: map<Path, File>, prefix: string, entries: seq<SpecEntry>, target: Lineage,
                     parts: seq<Part>, kinds: seq<ContentClass>)
    requires |parts| == |kinds| && DistinctKinds(kinds)
    requires forall k :: 0 <= k < |parts| ==> parts[k].kind == kinds[k] && PartOf(tree, prefix, entries, parts[k])
    requires forall kind :: kind in kinds <==> HasKind(entries, kind) && kind != Message(target)
    ensures IsSplit(tree, prefix, entries, target, parts)
    ensures parts != [] <==> exists i :: 0 <= i < |entries| && entries[i].kind != Message(target)
  {
    forall k | 0 <= k < |parts| ensures HasKind(entries, parts[k].kind) && parts[k].kind != Message(target) {
      assert kinds[k] in kinds;
    }
    if parts != [] {
      var i :| 0 <= i < |entries| && entries[i].kind == parts[0].kind;
    }
    forall i | 0 <= i < |entries| && entries[i].kind != Message(target)
      ensures exists k :: 0 <= k < |parts| && parts[k].kind == entries[i].kind
    {
      assert HasKind(entries, entries[i].kind);
      var k :| 0 <= k < |kinds| && kinds[k] == entries[i].kind;
      assert parts[k].kind == entries[i].kind;
    }
  }

  // ---- Conservation

  /** The operator's map tells the truth about what each file is. */
  ghost predicate Truthful(tree: map<Path, File>, prefix: string, entries: seq<SpecEntry>) {
    forall i :: 0 <= i < |entries| && FullPath(prefix, entries[i].path) in tree ==>
      tree[FullPath(prefix, entries[i].path)].kind == entries[i].kind
  }

  /** Every file outside the removed lineage is in exactly one part, at the same path below
      the prefix and with the same bytes; every file of a part comes from the tree; no part
      holds the removed lineage, and a part holds one class only. */
  lemma SplitConserves(tree: map<Path, File>, prefix: string, entries: seq<SpecEntry>, target: Lineage,
                       parts: seq<Part>)
    requires Covers(tree, prefix, entries) && DistinctPaths(entries) && Truthful(tree, prefix, entries)
    requires IsSplit(tree, prefix, entries, target, parts)
    ensures forall j, k :: 0 <= j < k < |parts| ==> parts[j].files.Keys !! parts[k].files.Keys
    ensures forall k, p :: 0 <= k < |parts| && p in parts[k].files ==>
              && FullPath(prefix, p) in tree && parts[k].files[p] == tree[FullPath(prefix, p)]
              && parts[k].files[p].kind == parts[k].kind != Message(target)
    ensures forall q :: q in tree && tree[q].kind != Message(target) ==>
              exists k, p :: 0 <= k < |parts| && p in parts[k].files && FullPath(prefix, p) == q
  {
    PartsComeFromTree(tree, prefix, entries, target, parts);
    TreeIsInParts(tree, prefix, entries, target, parts);
    forall j, k | 0 <= j < k < |parts| ensures parts[j].files.Keys !! parts[k].files.Keys {
      forall p | p in parts[j].files.Keys ensures p !in parts[k].files.Keys {
        assert parts[j].files[p].kind == parts[j].kind != parts[k].kind;
      }
    }
  }

  lemma PartsComeFromTree(tree: map<Path, File>, prefix: string, entries: seq<SpecEntry>, target: Lineage,
                          parts: seq<Part>)
    requires Truthful(tree, prefix, entries) && IsSplit(tree, prefix, entries, target, parts)
    ensures forall k, p :: 0 <= k < |parts| && p in parts[k].files ==>
              && FullPath(prefix, p) in tree && parts[k].files[p] == tree[FullPath(prefix, p)]
              && parts[k].files[p].kind == parts[k].kind != Message(target)
  {
    forall k, p | 0 <= k < |parts| && p in parts[k].files
      ensures FullPath(prefix, p) in tree && parts[k].files[p] == tree[FullPath(prefix, p)]
      ensures parts[k].files[p].kind == parts[k].kind
    {
      assert SpecEntry(p, parts[k].kind) in entries;
      var i :| 0 <= i < |entries| && entries[i] == SpecEntry(p, parts[k].kind);
      assert tree[FullPath(prefix, entries[i].path)].kind == entries[i].kind;
    }
  }

  lemma TreeIsInParts(tree: map<Path, File>, prefix: string, entries: seq<SpecEntry>, target: Lineage, parts: seq<Part>)
    requires Covers(tree, prefix, entries) && Truthful(tree, prefix, entries) &&
             IsSplit(tree, prefix, entries, target, parts)
    ensures forall q :: q in tree && tree[q].kind != Message(target) ==>
              exists k, p :: 0 <= k < |parts| && p in parts[k].files && FullPath(prefix, p) == q
  {
    forall q | q in tree && tree[q].kind != Message(target)
      ensures exists k, p :: 0 <= k < |parts| && p in parts[k].files && FullPath(prefix, p) == q
    {
      var i :| 0 <= i < |entries| && FullPath(prefix, entries[i].path) == q;
      var k :| 0 <= k < |parts| && parts[k].kind == entries[i].kind;
      assert entries[i].path in parts[k].files;
    }
  }
}
