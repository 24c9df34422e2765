/**
 The bounded JSON walk of packages/contracts/src/canonical-event.ts.

 `IsCanonicalJsonValue` is the source's explicit-stack traversal of an object graph in
 which containers may be shared or cyclic.  It is proved equal to a recursive judgement
 on the unfolding of the graph: every node well formed, at most 32 levels below the root,
 at most 50,000 nodes counted with multiplicity.  The recursive judgement has no cycle
 test; `CycleHasNoBoundedUnfolding` shows why none is needed.
 */
module CanonicalJson {
  import opened Decimals
  import opened Sequences

  const MAX_DEPTH: nat := 32
  const MAX_NODES: nat := 50_000
  const MAX_ENTRIES: nat := 10_000
  const MAX_KEY_CHARS: nat := 256
  const MAX_STRING_CHARS: nat := 1_048_576
  const MAX_SAFE_INTEGER: nat := 9_007_199_254_740_991

  /** A JavaScript value, reduced to what the walk inspects.  `Container` names an object
      or array in the heap, so that two values may share one. */
  datatype Value =
    | Null
    | Boolean
    | Number(finite: bool)
    | Text(length: nat)
    | Unsupported  // undefined, functions, symbols and bigints
    | Container(id: nat)

  datatype Descriptor = Data(value: Value) | Accessor

  datatype Prototype = ArrayPrototype | ObjectPrototype | NullPrototype | OtherPrototype

  /** `keys` is `Object.keys`; `own` also holds own properties that are not enumerable. */
  datatype Object =
    | ArrayObject(prototype: Prototype, length: nat, keys: seq<string>,
                  enumerableSymbol: bool, own: map<string, Descriptor>)
    | PlainObject(prototype: Prototype, keys: seq<string>,
                  enumerableSymbol: bool, own: map<string, Descriptor>)

  type Heap = nat -> Object

  /** The keys through which an object could reach its prototype. */
  lemma SensitiveKeysAre(key: string)
    ensures IsSensitiveKey(key) <==> key in {"__proto__", "prototype", "constructor"}
  {
  }

  predicate IsSensitiveKey(key: string) {
    key == "__proto__" || key == "prototype" || key == "constructor"
  }

  // ---- Array index keys

  /** `Number(key)` is a non-negative safe integer below `length` that prints back as `key`. */
  predicate IsArrayIndexKey(key: string, length: nat) {
    var index := DecimalValue(key);
    index <= MAX_SAFE_INTEGER && index < length && Decimal(index) == key
  }

  /** An array's admitted keys are exactly the decimal names of its indices. */
  lemma ArrayIndexKeys(key: string, length: nat)
    requires length <= MAX_SAFE_INTEGER
    ensures IsArrayIndexKey(key, length) <==> exists i: nat :: i < length && Decimal(i) == key
  {
    if i: nat :| i < length && Decimal(i) == key {
      DecimalRoundTrip(i);
    }
  }

  // ---- The recursive judgement

  /** Shape of one object, not looking below it. */
  predicate ObjectOk(o: Object) {
    match o
    case ArrayObject(prototype, length, keys, enumerableSymbol, own) =>
      && prototype == ArrayPrototype
      && length <= MAX_SAFE_INTEGER
      && length <= MAX_ENTRIES
      && |keys| <= MAX_ENTRIES
      && !enumerableSymbol
      && (forall i :: 0 <= i < |keys| ==> !IsSensitiveKey(keys[i]) && IsArrayIndexKey(keys[i], length))
      && (forall i: nat :: i < length ==> Decimal(i) in own && own[Decimal(i)].Data?)
    case PlainObject(prototype, keys, enumerableSymbol, own) =>
      && (prototype == ObjectPrototype || prototype == NullPrototype)
      && |keys| <= MAX_ENTRIES
      && !enumerableSymbol
      && (forall i :: 0 <= i < |keys| ==>
            !IsSensitiveKey(keys[i]) && |keys[i]| <= MAX_KEY_CHARS && keys[i] in own && own[keys[i]].Data?)
  }

  function ObjectChildren(o: Object): (cs: seq<Value>)
    requires ObjectOk(o)
  {
    match o
    case ArrayObject(_, length, _, _, own) => seq(length, i requires 0 <= i < length => own[Decimal(i)].value)
    case PlainObject(_, keys, _, own) => seq(|keys|, i requires 0 <= i < |keys| => own[keys[i]].value)
  }

  predicate NodeOk(h: Heap, v: Value) {
    match v
    case Null => true
    case Boolean => true
    case Number(finite) => finite
    case Text(length) => length <= MAX_STRING_CHARS
    case Unsupported => false
    case Container(id) => ObjectOk(h(id))
  }

  function Children(h: Heap, v: Value): (cs: seq<Value>) {
    if v.Container? && ObjectOk(h(v.id)) then ObjectChildren(h(v.id)) else []
  }

  /** Every node of the unfolding of `v` is well formed and lies at most `levels` below `v`. */
  predicate Bounded(h: Heap, v: Value, levels: nat)
    decreases levels
  {
    && NodeOk(h, v)
    && forall i :: 0 <= i < |Children(h, v)| ==> levels > 0 && Bounded(h, Children(h, v)[i], levels - 1)
  }

  /** Nodes of the unfolding of `v` down to `levels` below it, each occurrence counted. */
  ghost function NodeCount(h: Heap, v: Value, levels: nat): (n: nat)
    ensures n >= 1
    decreases levels, 1, 0
  {
    1 + if levels == 0 then 0 else ForestCount(h, Children(h, v), levels - 1)
  }

  ghost function ForestCount(h: Heap, vs: seq<Value>, levels: nat): nat
    decreases levels, 2, |vs|
  {
    if vs == [] then 0 else NodeCount(h, vs[0], levels) + ForestCount(h, vs[1..], levels)
  }

  /** The judgement the schema documents: a finite JSON tree within both budgets. */
  ghost predicate IsCanonical(h: Heap, root: Value) {
    Bounded(h, root, MAX_DEPTH) && NodeCount(h, root, MAX_DEPTH) <= MAX_NODES
  }

  // ---- Cycles

  /** `path` follows child edges. */
  ghost predicate IsPath(h: Heap, path: seq<Value>) {
    forall i :: 0 <= i < |path| - 1 ==> path[i + 1] in Children(h, path[i])
  }

  lemma {:induction false} BoundedAlongPath(h: Heap, path: seq<Value>, levels: nat)
    requires path != [] && IsPath(h, path) && Bounded(h, path[0], levels)
    ensures |path| - 1 <= levels
    ensures Bounded(h, path[|path| - 1], levels - (|path| - 1))
  {
    if |path| > 1 {
      assert path[0 + 1] in Children(h, path[0]);
      BoundedAlongPath(h, path[1..], levels - 1);
    }
  }

  /** A value on a cycle has no bounded unfolding, whatever the bound: this is why the
      judgement above needs no cycle test. */
  lemma {:induction false} CycleHasNoBoundedUnfolding(h: Heap, path: seq<Value>, levels: nat)
    requires |path| > 1 && IsPath(h, path) && path[0] == path[|path| - 1]
    ensures !Bounded(h, path[0], levels)
    decreases levels
  {
    if Bounded(h, path[0], levels) {
      BoundedAlongPath(h, path, levels);
      CycleHasNoBoundedUnfolding(h, path, levels - (|path| - 1));
    }
  }

  // ---- The explicit stack

  datatype Frame = Visit(value: Value, depth: nat) | Leave(id: nat)

  /** The containers being traversed, outermost first. */
  ghost function CurrentPath(stack: seq<Frame>): (p: seq<Value>)
    ensures forall v :: v in p ==> v.Container?
  {
    if stack == [] then []
    else
      var below := CurrentPath(stack[..|stack| - 1]);
      match stack[|stack| - 1]
      case Visit(_, _) => below
      case Leave(id) => below + [Container(id)]
  }

  ghost predicate ChildOfLast(h: Heap, path: seq<Value>, v: Value) {
    path != [] ==> v in Children(h, path[|path| - 1])
  }

  /** Each frame sits above exactly the `Leave` frames of its ancestors. */
  ghost predicate WellStacked(h: Heap, stack: seq<Frame>) {
    stack == [] ||
    (var below := stack[..|stack| - 1];
     && WellStacked(h, below)
     && match stack[|stack| - 1]
        case Visit(v, depth) => depth == |CurrentPath(below)| && ChildOfLast(h, CurrentPath(below), v)
        case Leave(id) => ChildOfLast(h, CurrentPath(below), Container(id)))
  }

  /** What remains to be visited is bounded, and how many nodes it has. */
  ghost predicate PendingBounded(h: Heap, stack: seq<Frame>) {
    forall i :: 0 <= i < |stack| ==>
      stack[i].Visit? ==> stack[i].depth <= MAX_DEPTH && Bounded(h, stack[i].value, MAX_DEPTH - stack[i].depth)
  }

  ghost function PendingCount(h: Heap, stack: seq<Frame>): nat {
    if stack == [] then 0
    else
      PendingCount(h, stack[..|stack| - 1]) +
      match stack[|stack| - 1]
      case Visit(v, depth) => if depth <= MAX_DEPTH then NodeCount(h, v, MAX_DEPTH - depth) else 1
      case Leave(_) => 0
  }

  lemma {:induction false} PathOfStack(h: Heap, stack: seq<Frame>)
    requires WellStacked(h, stack)
    ensures IsPath(h, CurrentPath(stack))
  {
    if stack != [] {
      var below, top := stack[..|stack| - 1], stack[|stack| - 1];
      PathOfStack(h, below);
      if top.Leave? { PathExtended(h, CurrentPath(below), Container(top.id)); }
    }
  }

  lemma PathExtended(h: Heap, path: seq<Value>, v: Value)
    requires IsPath(h, path) && ChildOfLast(h, path, v)
    ensures IsPath(h, path + [v])
  {
  }

  /** The part of a path from its `k`-th node on, closed by an edge back to that node. */
  ghost function ClosedAt(h: Heap, path: seq<Value>, k: nat): (cycle: seq<Value>)
    requires k < |path| && IsPath(h, path) && path[k] in Children(h, path[|path| - 1])
    ensures |cycle| > 1 && IsPath(h, cycle) && cycle[0] == path[k] == cycle[|cycle| - 1]
  {
    var cycle := path[k..] + [path[k]];
    assert forall i :: 0 <= i < |path| - k ==> cycle[i] == path[k + i];
    cycle
  }

  /** Re-entering a container on the current path is a cycle, hence unbounded. */
  lemma {:induction false} ReentryIsUnbounded(h: Heap, stack: seq<Frame>, v: Value, levels: nat)
    requires WellStacked(h, stack) && ChildOfLast(h, CurrentPath(stack), v)
    requires v in CurrentPath(stack)
    ensures !Bounded(h, v, levels)
  {
    var path := CurrentPath(stack);
    PathOfStack(h, stack);
    var k :| 0 <= k < |path| && path[k] == v;
    CycleHasNoBoundedUnfolding(h, ClosedAt(h, path, k), levels);
  }

  /** Pushing one more child keeps the stack discipline. */
  lemma {:induction false} PushVisit(h: Heap, stack: seq<Frame>, v: Value, depth: nat)
    requires WellStacked(h, stack)
    requires depth == |CurrentPath(stack)| && ChildOfLast(h, CurrentPath(stack), v)
    ensures WellStacked(h, stack + [Visit(v, depth)])
    ensures CurrentPath(stack + [Visit(v, depth)]) == CurrentPath(stack)
    ensures PendingCount(h, stack + [Visit(v, depth)]) ==
            PendingCount(h, stack) + if depth <= MAX_DEPTH then NodeCount(h, v, MAX_DEPTH - depth) else 1
    ensures PendingBounded(h, stack + [Visit(v, depth)]) <==>
            PendingBounded(h, stack) && depth <= MAX_DEPTH && Bounded(h, v, MAX_DEPTH - depth)
  {
    assert (stack + [Visit(v, depth)])[..|stack|] == stack;
    PendingCountVisit(h, stack, v, depth);
    PendingBoundedVisit(h, stack, v, depth);
  }

  lemma PendingCountVisit(h: Heap, stack: seq<Frame>, v: Value, depth: nat)
    ensures PendingCount(h, stack + [Visit(v, depth)]) ==
            PendingCount(h, stack) + if depth <= MAX_DEPTH then NodeCount(h, v, MAX_DEPTH - depth) else 1
  {
    assert (stack + [Visit(v, depth)])[..|stack|] == stack;
  }

  lemma PendingBoundedVisit(h: Heap, stack: seq<Frame>, v: Value, depth: nat)
    ensures PendingBounded(h, stack + [Visit(v, depth)]) <==>
            PendingBounded(h, stack) && depth <= MAX_DEPTH && Bounded(h, v, MAX_DEPTH - depth)
  {
    var pushed := stack + [Visit(v, depth)];
    if PendingBounded(h, pushed) {
      assert pushed[|stack|].Visit?;
      forall i | 0 <= i < |stack| && stack[i].Visit?
        ensures stack[i].depth <= MAX_DEPTH && Bounded(h, stack[i].value, MAX_DEPTH - stack[i].depth)
      {
        assert pushed[i] == stack[i];
      }
    }
  }

  /** All children of a container pushed last to first, with the stack below them. */
  ghost function Pushed(below: seq<Frame>, cs: seq<Value>, depth: nat): (stack: seq<Frame>)
    decreases |cs|
  {
    if cs == [] then below else Pushed(below, cs[1..], depth) + [Visit(cs[0], depth)]
  }

  lemma {:induction false} PushedChildren(h: Heap, below: seq<Frame>, cs: seq<Value>, depth: nat)
    requires WellStacked(h, below)
    requires depth == |CurrentPath(below)|
    requires forall v :: v in cs ==> ChildOfLast(h, CurrentPath(below), v)
    ensures WellStacked(h, Pushed(below, cs, depth))
    ensures CurrentPath(Pushed(below, cs, depth)) == CurrentPath(below)
    ensures PendingBounded(h, Pushed(below, cs, depth)) <==> PendingBounded(h, below) && ForestBounded(h, cs, depth)
    ensures depth <= MAX_DEPTH ==>
              PendingCount(h, Pushed(below, cs, depth)) ==
              PendingCount(h, below) + ForestCount(h, cs, MAX_DEPTH - depth)
    decreases |cs|
  {
    if cs != [] {
      assert forall v :: v in cs[1..] ==> v in cs;
      PushedChildren(h, below, cs[1..], depth);
      PushVisit(h, Pushed(below, cs[1..], depth), cs[0], depth);
      ForestBoundedSplit(h, cs, depth);
    }
  }

  ghost predicate ForestBounded(h: Heap, cs: seq<Value>, depth: nat) {
    forall i :: 0 <= i < |cs| ==> depth <= MAX_DEPTH && Bounded(h, cs[i], MAX_DEPTH - depth)
  }

  lemma {:induction false} ForestBoundedSplit(h: Heap, cs: seq<Value>, depth: nat)
    requires cs != []
    ensures ForestBounded(h, cs, depth) <==>
            depth <= MAX_DEPTH && Bounded(h, cs[0], MAX_DEPTH - depth) && ForestBounded(h, cs[1..], depth)
  {
    if ForestBounded(h, cs, depth) {
      assert Bounded(h, cs[0], MAX_DEPTH - depth);
      forall i | 0 <= i < |cs[1..]| ensures Bounded(h, cs[1..][i], MAX_DEPTH - depth) {
        assert cs[1..][i] == cs[i + 1];
      }
    }
    if depth <= MAX_DEPTH && Bounded(h, cs[0], MAX_DEPTH - depth) && ForestBounded(h, cs[1..], depth) {
      forall i | 0 < i < |cs| ensures Bounded(h, cs[i], MAX_DEPTH - depth) {
        assert cs[1..][i - 1] == cs[i];
      }
    }
  }

  /** The active set is exactly the containers on the current path. */
  ghost predicate OnPath(path: seq<Value>, active: set<nat>) {
    forall id :: id in active <==> Container(id) in path
  }

  /** The state of the walk between two frames. */
  ghost predicate WalkInvariant(h: Heap, root: Value, stack: seq<Frame>, active: set<nat>, nodeCount: nat) {
    && CountInvariant(h, root, stack, nodeCount)
    && Distinct(CurrentPath(stack))
    && OnPath(CurrentPath(stack), active)
  }

  /** The part of it that does not speak of the active set: the answer is decided by what is
      counted and what is still pending. */
  ghost predicate CountInvariant(h: Heap, root: Value, stack: seq<Frame>, nodeCount: nat) {
    && WellStacked(h, stack)
    && (IsCanonical(h, root) <==> PendingBounded(h, stack) && nodeCount + PendingCount(h, stack) <= MAX_NODES)
  }

  // ---- What one iteration does to the invariant

  lemma {:induction false} WalkStarts(h: Heap, root: Value)
    ensures WalkInvariant(h, root, [Visit(root, 0)], {}, 0)
  {
    PushVisit(h, [], root, 0);
    assert [] + [Visit(root, 0)] == [Visit(root, 0)];
  }

  lemma CountLeave(h: Heap, root: Value, below: seq<Frame>, id: nat, n: nat)
    requires CountInvariant(h, root, below + [Leave(id)], n)
    ensures CountInvariant(h, root, below, n)
  {
    assert (below + [Leave(id)])[..|below|] == below;
    PendingBoundedLeave(h, below, id);
  }

  /** The top frame is a `Visit`: the discipline below it, and what it contributes. */
  lemma CountVisit(h: Heap, root: Value, below: seq<Frame>, v: Value, depth: nat, n: nat)
    requires CountInvariant(h, root, below + [Visit(v, depth)], n)
    ensures WellStacked(h, below)
    ensures depth == |CurrentPath(below)| && ChildOfLast(h, CurrentPath(below), v)
    ensures CurrentPath(below + [Visit(v, depth)]) == CurrentPath(below)
    ensures IsCanonical(h, root) ==>
              depth <= MAX_DEPTH && n < MAX_NODES && NodeOk(h, v) && Bounded(h, v, MAX_DEPTH - depth)
  {
    var stack := below + [Visit(v, depth)];
    assert stack[..|stack| - 1] == below;
    PushVisit(h, below, v, depth);
  }

  lemma CountLeaf(h: Heap, root: Value, below: seq<Frame>, v: Value, depth: nat, n: nat)
    requires CountInvariant(h, root, below + [Visit(v, depth)], n)
    requires NodeOk(h, v) && !v.Container? && depth <= MAX_DEPTH
    ensures CountInvariant(h, root, below, n + 1)
  {
    CountVisit(h, root, below, v, depth, n);
    PushVisit(h, below, v, depth);
    assert Children(h, v) == [];
    assert NodeCount(h, v, MAX_DEPTH - depth) == 1;
    assert Bounded(h, v, MAX_DEPTH - depth);
  }

  lemma CountContainer(h: Heap, root: Value, below: seq<Frame>, id: nat, depth: nat, n: nat)
    requires CountInvariant(h, root, below + [Visit(Container(id), depth)], n)
    requires ObjectOk(h(id)) && depth <= MAX_DEPTH
    ensures CountInvariant(h, root, Pushed(below + [Leave(id)], Children(h, Container(id)), depth + 1), n + 1)
  {
    CountVisit(h, root, below, Container(id), depth, n);
    PushVisit(h, below, Container(id), depth);
    EnterContainer(h, below, id, depth);
    UnfoldOnce(h, Container(id), depth);
  }

  lemma {:induction false} PopLeave(h: Heap, root: Value, below: seq<Frame>, id: nat, active: set<nat>, n: nat)
    requires WalkInvariant(h, root, below + [Leave(id)], active, n)
    ensures WalkInvariant(h, root, below, active - {id}, n)
  {
    var stack := below + [Leave(id)];
    assert stack[..|stack| - 1] == below;
    CountLeave(h, root, below, id, n);
    var path := CurrentPath(below);
    assert CurrentPath(stack) == path + [Container(id)];
    assert path == CurrentPath(stack)[..|path|];
    assert CurrentPath(stack)[|path|] == Container(id);
  }

  /** A container of the active set is on the current path: the answer is no. */
  lemma TopVisit(h: Heap, root: Value, below: seq<Frame>, v: Value, depth: nat, active: set<nat>, n: nat)
    requires WalkInvariant(h, root, below + [Visit(v, depth)], active, n)
    ensures IsCanonical(h, root) ==> depth <= MAX_DEPTH && n < MAX_NODES && NodeOk(h, v)
    ensures v.Container? && v.id in active ==> !IsCanonical(h, root)
  {
    CountVisit(h, root, below, v, depth, n);
    if v.Container? && v.id in active && depth <= MAX_DEPTH {
      ReentryIsUnbounded(h, below, v, MAX_DEPTH - depth);
    }
  }

  /** Popping a `Visit` frame of a node without children: one node done, nothing new pending. */
  lemma VisitLeaf(h: Heap, root: Value, below: seq<Frame>, v: Value, depth: nat, active: set<nat>, n: nat)
    requires WalkInvariant(h, root, below + [Visit(v, depth)], active, n)
    requires NodeOk(h, v) && !v.Container? && depth <= MAX_DEPTH
    ensures WalkInvariant(h, root, below, active, n + 1)
  {
    CountVisit(h, root, below, v, depth, n);
    CountLeaf(h, root, below, v, depth, n);
  }

  /** Popping a `Visit` frame of a container: its children become pending in its place. */
  lemma VisitContainer(h: Heap, root: Value, below: seq<Frame>, id: nat, depth: nat, active: set<nat>, n: nat)
    requires WalkInvariant(h, root, below + [Visit(Container(id), depth)], active, n)
    requires ObjectOk(h(id)) && id !in active && depth <= MAX_DEPTH
    ensures WalkInvariant(h, root, Pushed(below + [Leave(id)], Children(h, Container(id)), depth + 1), active + {id},
                          n + 1)
  {
    CountVisit(h, root, below, Container(id), depth, n);
    CountContainer(h, root, below, id, depth, n);
    EnterContainer(h, below, id, depth);
    ExtendPath(CurrentPath(below), active, id);
  }

  lemma ExtendPath(path: seq<Value>, active: set<nat>, id: nat)
    requires Distinct(path) && OnPath(path, active) && id !in active
    ensures Distinct(path + [Container(id)]) && OnPath(path + [Container(id)], active + {id})
  {
    assert Container(id) !in path;
    assert forall v :: v in path + [Container(id)] <==> v in path || v == Container(id);
  }

  lemma {:induction false} EnterContainer(h: Heap, below: seq<Frame>, id: nat, depth: nat)
    requires WellStacked(h, below) && ObjectOk(h(id))
    requires depth == |CurrentPath(below)| && ChildOfLast(h, CurrentPath(below), Container(id))
    ensures var cs := Children(h, Container(id));
            var next := Pushed(below + [Leave(id)], cs, depth + 1);
            && WellStacked(h, next)
            && CurrentPath(next) == CurrentPath(below) + [Container(id)]
            && (PendingBounded(h, next) <==> PendingBounded(h, below) && ForestBounded(h, cs, depth + 1))
            && (depth < MAX_DEPTH ==>
                  PendingCount(h, next) == PendingCount(h, below) + ForestCount(h, cs, MAX_DEPTH - depth - 1))
            && (cs == [] ==> PendingCount(h, next) == PendingCount(h, below))
  {
    Entered(h, below, id);
    PushedOnto(h, below, below + [Leave(id)], Children(h, Container(id)), depth, CurrentPath(below) + [Container(id)]);
  }

  lemma PushedOnto(h: Heap, below: seq<Frame>, entered: seq<Frame>, cs: seq<Value>, depth: nat, path: seq<Value>)
    requires WellStacked(h, entered) && CurrentPath(entered) == path && |path| == depth + 1
    requires forall v :: v in cs ==> ChildOfLast(h, path, v)
    requires (PendingBounded(h, entered) <==> PendingBounded(h, below)) &&
             PendingCount(h, entered) == PendingCount(h, below)
    ensures var next := Pushed(entered, cs, depth + 1);
            && WellStacked(h, next) && CurrentPath(next) == path
            && (PendingBounded(h, next) <==> PendingBounded(h, below) && ForestBounded(h, cs, depth + 1))
            && (depth < MAX_DEPTH ==>
                  PendingCount(h, next) == PendingCount(h, below) + ForestCount(h, cs, MAX_DEPTH - depth - 1))
            && (cs == [] ==> PendingCount(h, next) == PendingCount(h, below))
  {
    PushedChildren(h, entered, cs, depth + 1);
  }

  /** The stack with the container's own frame on top. */
  lemma Entered(h: Heap, below: seq<Frame>, id: nat)
    requires WellStacked(h, below) && ObjectOk(h(id)) && ChildOfLast(h, CurrentPath(below), Container(id))
    ensures var entered := below + [Leave(id)];
            && WellStacked(h, entered) && CurrentPath(entered) == CurrentPath(below) + [Container(id)]
            && (PendingBounded(h, entered) <==> PendingBounded(h, below))
            && PendingCount(h, entered) == PendingCount(h, below)
            && forall v :: v in Children(h, Container(id)) ==> ChildOfLast(h, CurrentPath(entered), v)
  {
    var entered := below + [Leave(id)];
    assert entered[..|entered| - 1] == below;
    PendingBoundedLeave(h, below, id);
  }

  /** One level of the unfolding, in terms of the forest below. */
  lemma {:induction false} UnfoldOnce(h: Heap, v: Value, depth: nat)
    requires depth <= MAX_DEPTH && NodeOk(h, v)
    ensures Bounded(h, v, MAX_DEPTH - depth) <==> ForestBounded(h, Children(h, v), depth + 1)
    ensures depth < MAX_DEPTH ==>
              NodeCount(h, v, MAX_DEPTH - depth) == 1 + ForestCount(h, Children(h, v), MAX_DEPTH - depth - 1)
    ensures depth == MAX_DEPTH ==>
              NodeCount(h, v, 0) == 1 && (Bounded(h, v, 0) ==> Children(h, v) == [])
  {
    var cs := Children(h, v);
    if depth < MAX_DEPTH {
      var below := MAX_DEPTH - depth - 1;
      assert MAX_DEPTH - (depth + 1) == below;
      assert Bounded(h, v, below + 1) <==> forall i :: 0 <= i < |cs| ==> Bounded(h, cs[i], below);
    } else if cs != [] {
      assert Children(h, v)[0] == cs[0];
      assert !Bounded(h, v, 0) && !ForestBounded(h, cs, depth + 1);
    }
  }

  lemma {:induction false} PendingBoundedLeave(h: Heap, below: seq<Frame>, id: nat)
    ensures PendingBounded(h, below + [Leave(id)]) <==> PendingBounded(h, below)
  {
    var entered := below + [Leave(id)];
    if PendingBounded(h, entered) {
      forall i | 0 <= i < |below| && below[i].Visit?
        ensures below[i].depth <= MAX_DEPTH && Bounded(h, below[i].value, MAX_DEPTH - below[i].depth)
      {
        assert entered[i] == below[i];
      }
    }
  }

  // ---- The walk

  lemma PushedStep(below: seq<Frame>, cs: seq<Value>, k: nat, depth: nat)
    requires k < |cs|
    ensures Pushed(below, cs[k..], depth) == Pushed(below, cs[k + 1..], depth) + [Visit(cs[k], depth)]
  {
    assert cs[k..][1..] == cs[k + 1..];
  }

  /** Checks an array and pushes its elements, last first, above a `Leave` frame. */
  method PushElements(o: Object, id: nat, depth: nat, below: seq<Frame>) returns (ok: bool, stack: seq<Frame>)
    requires o.ArrayObject?
    ensures ok <==> ObjectOk(o)
    ensures ok ==> stack == Pushed(below + [Leave(id)], ObjectChildren(o), depth + 1)
  {
    stack := below;
    if o.prototype != ArrayPrototype || o.length > MAX_SAFE_INTEGER || o.length > MAX_ENTRIES
       || |o.keys| > MAX_ENTRIES || o.enumerableSymbol
    {
      return false, stack;
    }
    for i := 0 to |o.keys|
      invariant forall j :: 0 <= j < i ==> !IsSensitiveKey(o.keys[j]) && IsArrayIndexKey(o.keys[j], o.length)
    {
      if IsSensitiveKey(o.keys[i]) || !IsArrayIndexKey(o.keys[i], o.length) {
        return false, stack;
      }
    }
    ghost var all := ObjectOk(o);
    ghost var cs := if all then ObjectChildren(o) else [];
    stack := stack + [Leave(id)];
    assert all ==> cs[o.length..] == [];
    for index := o.length downto 0
      invariant forall j: nat :: index <= j < o.length ==> Decimal(j) in o.own && o.own[Decimal(j)].Data?
      invariant all ==> stack == Pushed(below + [Leave(id)], cs[index..], depth + 1)
    {
      var key := Decimal(index);
      if key !in o.own || o.own[key].Accessor? {
        return false, stack;
      }
      stack := stack + [Visit(o.own[key].value, depth + 1)];
      if all { PushedStep(below + [Leave(id)], cs, index, depth + 1); }
    }
    assert cs[0..] == cs;
    return true, stack;
  }

  /** Checks a plain object and pushes its values, last first, above a `Leave` frame. */
  method PushValues(o: Object, id: nat, depth: nat, below: seq<Frame>) returns (ok: bool, stack: seq<Frame>)
    requires o.PlainObject?
    ensures ok <==> ObjectOk(o)
    ensures ok ==> stack == Pushed(below + [Leave(id)], ObjectChildren(o), depth + 1)
  {
    stack := below;
    if
      || (o.prototype != ObjectPrototype && o.prototype != NullPrototype)
      || |o.keys| > MAX_ENTRIES || o.enumerableSymbol
    {
      return false, stack;
    }
    ghost var all := ObjectOk(o);
    ghost var cs := if all then ObjectChildren(o) else [];
    stack := stack + [Leave(id)];
    assert all ==> cs[|o.keys|..] == [];
    for index := |o.keys| downto 0
      invariant forall j :: index <= j < |o.keys| ==>
                  !IsSensitiveKey(o.keys[j]) && |o.keys[j]| <= MAX_KEY_CHARS && o.keys[j] in o.own &&
                  o.own[o.keys[j]].Data?
      invariant all ==> stack == Pushed(below + [Leave(id)], cs[index..], depth + 1)
    {
      var key := o.keys[index];
      if IsSensitiveKey(key) || |key| > MAX_KEY_CHARS || key !in o.own || o.own[key].Accessor? {
        return false, stack;
      }
      stack := stack + [Visit(o.own[key].value, depth + 1)];
      if all { PushedStep(below + [Leave(id)], cs, index, depth + 1); }
    }
    assert cs[0..] == cs;
    return true, stack;
  }

  method IsCanonicalJsonValue(h: Heap, root: Value) returns (ok: bool)
    ensures ok <==> IsCanonical(h, root)
  {
    var active: set<nat> := {};
    var stack := [Visit(root, 0)];
    var nodeCount := 0;
    WalkStarts(h, root);
    while stack != []
      invariant nodeCount <= MAX_NODES
      invariant WalkInvariant(h, root, stack, active, nodeCount)
      decreases MAX_NODES - nodeCount, |stack|
    {
      var frame, below := stack[|stack| - 1], stack[..|stack| - 1];
      assert stack == below + [frame];
      stack := below;
      match frame {
        case Leave(id) =>
          PopLeave(h, root, below, id, active, nodeCount);
          active := active - {id};
        case Visit(value, depth) =>
          TopVisit(h, root, below, value, depth, active, nodeCount);
          if depth > MAX_DEPTH { return false; }
          nodeCount := nodeCount + 1;
          if nodeCount > MAX_NODES { return false; }
          match value {
            case Null =>
            case Boolean =>
            case Number(finite) => if !finite { return false; }
            case Text(length) => if length > MAX_STRING_CHARS { return false; }
            case Unsupported => return false;
            case Container(id) =>
              if id in active { return false; }
              var pushed;
              if h(id).ArrayObject? {
                pushed, stack := PushElements(h(id), id, depth, below);
              } else {
                pushed, stack := PushValues(h(id), id, depth, below);
              }
              if !pushed { return false; }
              VisitContainer(h, root, below, id, depth, active, nodeCount - 1);
              active := active + {id};
          }
          if !value.Container? { VisitLeaf(h, root, below, value, depth, active, nodeCount - 1); }
      }
    }
    return true;
  }

  /** The same loop without the active set and its cycle test gives the same answer: on a
      cycle the depth or node budget ends it. */
  method WalkWithoutCycleTest(h: Heap, root: Value) returns (ok: bool)
    ensures ok <==> IsCanonical(h, root)
  {
    var stack := [Visit(root, 0)];
    var nodeCount := 0;
    WalkStarts(h, root);
    while stack != []
      invariant nodeCount <= MAX_NODES
      invariant CountInvariant(h, root, stack, nodeCount)
      decreases MAX_NODES - nodeCount, |stack|
    {
      var frame, below := stack[|stack| - 1], stack[..|stack| - 1];
      assert stack == below + [frame];
      stack := below;
      match frame {
        case Leave(id) =>
          CountLeave(h, root, below, id, nodeCount);
        case Visit(value, depth) =>
          CountVisit(h, root, below, value, depth, nodeCount);
          if depth > MAX_DEPTH { return false; }
          nodeCount := nodeCount + 1;
          if nodeCount > MAX_NODES { return false; }
          match value {
            case Null =>
            case Boolean =>
            case Number(finite) => if !finite { return false; }
            case Text(length) => if length > MAX_STRING_CHARS { return false; }
            case Unsupported => return false;
            case Container(id) =>
              var pushed;
              if h(id).ArrayObject? {
                pushed, stack := PushElements(h(id), id, depth, below);
              } else {
                pushed, stack := PushValues(h(id), id, depth, below);
              }
              if !pushed { return false; }
              CountContainer(h, root, below, id, depth, nodeCount - 1);
          }
          if !value.Container? { CountLeaf(h, root, below, value, depth, nodeCount - 1); }
      }
    }
    return true;
  }

  /** The object form: additionally neither null nor an array. */
  method IsCanonicalJsonObject(h: Heap, value: Value) returns (ok: bool)
    ensures ok <==> IsCanonical(h, value) && value.Container? && h(value.id).PlainObject?
  {
    if !value.Container? || h(value.id).ArrayObject? { return false; }
    ok := IsCanonicalJsonValue(h, value);
  }
}
