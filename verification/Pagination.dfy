/**
 Cursor pagination of apps/control-plane/src/mocks/conversation-pagination.ts:
 `paginateConversations` and `paginateMessages`, which differ only in their comparison.

 `localeCompare` and `Date.parse` are parameters; a cursor is the pair that its text encodes.
 */
module Pagination {
  import opened Wrappers
  import opened Sequences

  datatype Item = Item(stamp: string, id: string, body: string)

  datatype Cursor = Absent | Malformed | At(stamp: string, id: string)

  datatype Page = NoPage | Page(items: seq<Item>, next: Cursor)

  type Collation = (string, string) -> int
  type Comparison = (Item, Item) -> int

  // ---- The two comparisons

  function CompareConversations(locale: Collation): (r: Comparison) {
    (left: Item, right: Item) =>
      var byStamp := locale(right.stamp, left.stamp);
      if byStamp != 0 then byStamp else locale(left.id, right.id)
  }

  function CompareMessages(locale: Collation, milliseconds: string -> int): (r: Comparison) {
    (left: Item, right: Item) =>
      if milliseconds(left.stamp) != milliseconds(right.stamp) then
        (if milliseconds(right.stamp) > milliseconds(left.stamp) then 1 else -1)
      else locale(left.id, right.id)
  }

  ghost predicate Consistent<T(!new)>(compare: (T, T) -> int) {
    && (forall a, b :: compare(a, b) <= 0 <==> compare(b, a) >= 0)
    && (forall a, b, c :: compare(a, b) <= 0 && compare(b, c) <= 0 ==> compare(a, c) <= 0)
  }

  lemma ConversationsConsistent(locale: Collation)
    requires Consistent(locale)
    ensures Consistent(CompareConversations(locale))
  {
    var compare := CompareConversations(locale);
    forall a, b ensures compare(a, b) <= 0 <==> compare(b, a) >= 0 {
      assert locale(a.stamp, b.stamp) <= 0 <==> locale(b.stamp, a.stamp) >= 0;
      assert locale(b.stamp, a.stamp) <= 0 <==> locale(a.stamp, b.stamp) >= 0;
      assert locale(a.id, b.id) <= 0 <==> locale(b.id, a.id) >= 0;
    }
    forall a, b, c | compare(a, b) <= 0 && compare(b, c) <= 0 ensures compare(a, c) <= 0 {
      assert locale(c.stamp, b.stamp) <= 0 && locale(b.stamp, a.stamp) <= 0;
      assert locale(c.stamp, a.stamp) <= 0;
      if locale(c.stamp, a.stamp) == 0 {
        assert locale(a.stamp, c.stamp) <= 0;
        assert locale(b.stamp, c.stamp) <= 0 by { assert locale(b.stamp, a.stamp) <= 0; }
        assert locale(a.stamp, b.stamp) <= 0 by { assert locale(c.stamp, b.stamp) <= 0; }
        assert locale(c.stamp, b.stamp) == 0 && locale(b.stamp, a.stamp) == 0;
      }
    }
  }

  lemma MessagesConsistent(locale: Collation, milliseconds: string -> int)
    requires Consistent(locale)
    ensures Consistent(CompareMessages(locale, milliseconds))
  {
    var compare := CompareMessages(locale, milliseconds);
    forall a, b ensures compare(a, b) <= 0 <==> compare(b, a) >= 0 {
      assert locale(a.id, b.id) <= 0 <==> locale(b.id, a.id) >= 0;
    }
    forall a, b, c | compare(a, b) <= 0 && compare(b, c) <= 0 ensures compare(a, c) <= 0 {
      assert milliseconds(c.stamp) <= milliseconds(b.stamp) <= milliseconds(a.stamp);
      assert locale(a.id, b.id) <= 0 && locale(b.id, c.id) <= 0 ==> locale(a.id, c.id) <= 0;
    }
  }

  // ---- Sorting into a copy

  /** A later item goes behind the items it compares equal to. */
  function Insert(x: Item, items: seq<Item>, compare: Comparison): (r: seq<Item>) {
    if items == [] || compare(items[|items| - 1], x) <= 0 then items + [x]
    else Insert(x, items[..|items| - 1], compare) + [items[|items| - 1]]
  }

  function Sorted(source: seq<Item>, compare: Comparison): (r: seq<Item>) {
    if source == [] then [] else Insert(source[|source| - 1], Sorted(source[..|source| - 1], compare), compare)
  }

  ghost predicate Ordered(items: seq<Item>, compare: Comparison) {
    forall i, j :: 0 <= i < j < |items| ==> compare(items[i], items[j]) <= 0
  }

  lemma {:induction false} InsertKeeps(x: Item, items: seq<Item>, compare: Comparison)
    ensures multiset(Insert(x, items, compare)) == multiset(items) + multiset{x}
  {
    if items != [] && compare(items[|items| - 1], x) > 0 {
      InsertKeeps(x, items[..|items| - 1], compare);
      assert items == items[..|items| - 1] + [items[|items| - 1]];
    }
  }

  lemma AppendOrdered(items: seq<Item>, top: Item, compare: Comparison)
    requires Ordered(items, compare) && forall y :: y in items ==> compare(y, top) <= 0
    ensures Ordered(items + [top], compare)
  {
  }

  lemma {:induction false} InsertMembers(x: Item, items: seq<Item>, compare: Comparison)
    ensures forall y :: y in Insert(x, items, compare) <==> y == x || y in items
  {
    if items != [] && compare(items[|items| - 1], x) > 0 {
      InsertMembers(x, items[..|items| - 1], compare);
      assert items == items[..|items| - 1] + [items[|items| - 1]];
    }
  }

  lemma LastIsTop(items: seq<Item>, x: Item, compare: Comparison)
    requires Consistent(compare) && Ordered(items, compare) && items != [] && compare(items[|items| - 1], x) <= 0
    ensures forall y :: y in items ==> compare(y, x) <= 0
  {
    var n := |items| - 1;
    forall y | y in items ensures compare(y, x) <= 0 {
      var i :| 0 <= i < |items| && items[i] == y;
      if i < n { assert compare(items[i], items[n]) <= 0; }
    }
  }

  lemma {:induction false} InsertOrdered(x: Item, items: seq<Item>, compare: Comparison)
    requires Consistent(compare) && Ordered(items, compare)
    ensures Ordered(Insert(x, items, compare), compare)
  {
    if items == [] {
      AppendOrdered(items, x, compare);
    } else {
      var n := |items| - 1;
      if compare(items[n], x) <= 0 {
        LastIsTop(items, x, compare);
        AppendOrdered(items, x, compare);
      } else {
        var before := items[..n];
        InsertOrdered(x, before, compare);
        InsertMembers(x, before, compare);
        assert compare(x, items[n]) <= 0;
        assert forall y :: y in before ==> compare(y, items[n]) <= 0;
        AppendOrdered(Insert(x, before, compare), items[n], compare);
      }
    }
  }

  /** The items that compare equal to `c`, in order. */
  function Peers(items: seq<Item>, c: Item, compare: Comparison): (r: seq<Item>) {
    if items == [] then []
    else
      var rest, last := Peers(items[..|items| - 1], c, compare), items[|items| - 1];
      if compare(last, c) == 0 then rest + [last] else rest
  }

  lemma PeersNotPassed(x: Item, y: Item, c: Item, compare: Comparison)
    requires Consistent(compare)
    ensures compare(x, c) == 0 && compare(y, c) == 0 ==> compare(y, x) <= 0
  {
    assert compare(c, x) <= 0 <==> compare(x, c) >= 0;
  }

  lemma {:induction false} InsertStable(x: Item, items: seq<Item>, c: Item, compare: Comparison)
    requires Consistent(compare)
    ensures Peers(Insert(x, items, compare), c, compare) ==
            Peers(items, c, compare) + if compare(x, c) == 0 then [x] else []
  {
    var n := |items| - 1;
    if items == [] || compare(items[n], x) <= 0 {
      assert (items + [x])[..|items|] == items;
    } else {
      InsertStable(x, items[..n], c, compare);
      var inner := Insert(x, items[..n], compare);
      assert (inner + [items[n]])[..|inner|] == inner;
      PeersNotPassed(x, items[n], c, compare);
    }
  }

  /** Sorting gives an ordered permutation in which items that compare equal keep their order. */
  lemma {:induction false} SortedIsSorted(source: seq<Item>, compare: Comparison)
    ensures multiset(Sorted(source, compare)) == multiset(source)
    ensures Consistent(compare) ==> Ordered(Sorted(source, compare), compare)
    ensures Consistent(compare) ==> forall c :: Peers(Sorted(source, compare), c, compare) == Peers(source, c, compare)
  {
    if source != [] {
      var before, last := source[..|source| - 1], source[|source| - 1];
      SortedIsSorted(before, compare);
      InsertKeeps(last, Sorted(before, compare), compare);
      assert source == before + [last];
      if Consistent(compare) {
        InsertOrdered(last, Sorted(before, compare), compare);
        forall c ensures Peers(Sorted(source, compare), c, compare) == Peers(source, c, compare) {
          InsertStable(last, Sorted(before, compare), c, compare);
        }
      }
    }
  }

  /** Conversations come newest first, and by id where the timestamps compare equal. */
  lemma ConversationsNewestFirst(source: seq<Item>, locale: Collation, i: nat, j: nat)
    requires Consistent(locale) && i < j < |source|
    ensures var items := Sorted(source, CompareConversations(locale));
            && |items| == |source|
            && locale(items[j].stamp, items[i].stamp) <= 0
            && (locale(items[j].stamp, items[i].stamp) == 0 ==> locale(items[i].id, items[j].id) <= 0)
  {
    var items := Sorted(source, CompareConversations(locale));
    ConversationsConsistent(locale);
    SortedIsSorted(source, CompareConversations(locale));
    PermutationLength(items, source);
    assert CompareConversations(locale)(items[i], items[j]) <= 0;
  }

  /** Messages come newest first by the instant they are stamped with, then by id. */
  lemma MessagesNewestFirst(source: seq<Item>, locale: Collation, milliseconds: string -> int, i: nat, j: nat)
    requires Consistent(locale) && i < j < |source|
    ensures var items := Sorted(source, CompareMessages(locale, milliseconds));
            && |items| == |source|
            && milliseconds(items[i].stamp) >= milliseconds(items[j].stamp)
            && (milliseconds(items[i].stamp) == milliseconds(items[j].stamp) ==> locale(items[i].id, items[j].id) <= 0)
  {
    var items := Sorted(source, CompareMessages(locale, milliseconds));
    MessagesConsistent(locale, milliseconds);
    SortedIsSorted(source, CompareMessages(locale, milliseconds));
    PermutationLength(items, source);
    assert CompareMessages(locale, milliseconds)(items[i], items[j]) <= 0;
  }

  // ---- One page

  predicate IsAt(item: Item, stamp: string, id: string) {
    item.stamp == stamp && item.id == id
  }

  /** The position after the first item that the cursor names, or none. */
  function Start(items: seq<Item>, cursor: Cursor): (start: int)
    ensures -1 <= start <= |items|
  {
    match cursor
    case Absent => 0
    case Malformed => -1
    case At(stamp, id) => FirstAt(items, stamp, id, 0)
  }

  function FirstAt(items: seq<Item>, stamp: string, id: string, from: nat): (after: int)
    requires from <= |items|
    ensures after == -1 || from < after <= |items|
    ensures after == -1 ==> forall i :: from <= i < |items| ==> !IsAt(items[i], stamp, id)
    ensures after != -1 ==>
              IsAt(items[after - 1], stamp, id) && forall i :: from <= i < after - 1 ==> !IsAt(items[i], stamp, id)
    decreases |items| - from
  {
    if from == |items| then -1
    else if IsAt(items[from], stamp, id) then from + 1
    else FirstAt(items, stamp, id, from + 1)
  }

  function PageEnd(items: seq<Item>, start: nat, limit: nat): (end: nat)
    requires start <= |items|
    ensures start <= end <= |items|
  {
    if start + limit < |items| then start + limit else |items|
  }

  function PageAt(items: seq<Item>, limit: int, cursor: Cursor): (page: Page) {
    var start := Start(items, cursor);
    if limit < 1 || limit > 100 || start < 0 then NoPage else PageFrom(items, limit, start)
  }

  function PageFrom(items: seq<Item>, limit: int, start: nat): (page: Page)
    requires start <= |items| && limit >= 1
  {
    var end := PageEnd(items, start, limit);
    Page(items[start..end], if end < |items| then At(items[end - 1].stamp, items[end - 1].id) else Absent)
  }

  /** A page is given exactly for a limit between 1 and 100 and a cursor that is absent or names an
      item; it holds the `limit` items behind the first one the cursor names, or all that are left,
      and its next cursor names its last item exactly when some are left. */
  lemma PageMeans(items: seq<Item>, limit: int, cursor: Cursor)
    ensures var page := PageAt(items, limit, cursor);
            && (page.Page? <==> 1 <= limit <= 100 && (cursor == Absent || Named(items, cursor)))
            && (page.Page? ==> exists start :: PointsTo(items, cursor, start) && IsPageFrom(items, limit, page, start))
  {
    var start := Start(items, cursor);
    if start >= 0 && cursor.At? { assert FirstNamed(items, cursor, start - 1); }
    if PageAt(items, limit, cursor).Page? { assert PointsTo(items, cursor, start); }
  }

  /** Where the cursor points: to the beginning, or behind the first item that it names. */
  ghost predicate PointsTo(items: seq<Item>, cursor: Cursor, start: int) {
    0 <= start <= |items| && if cursor == Absent then start == 0 else FirstNamed(items, cursor, start - 1)
  }

  ghost predicate IsPageFrom(items: seq<Item>, limit: int, page: Page, start: int)
    requires page.Page? && 0 <= start <= |items|
  {
    var end := start + |page.items|;
    && end <= |items| && page.items == items[start..end]
    && (|page.items| == limit || (|page.items| < limit && end == |items|))
    && if end == |items| then page.next == Absent
       else |page.items| > 0 && page.next == At(items[end - 1].stamp, items[end - 1].id)
  }

  /** The cursor names the item at `i` and none before it. */
  ghost predicate FirstNamed(items: seq<Item>, cursor: Cursor, i: int) {
    && 0 <= i < |items| && cursor.At? && items[i].stamp == cursor.stamp && items[i].id == cursor.id
    && forall j :: 0 <= j < i ==> items[j].stamp != cursor.stamp || items[j].id != cursor.id
  }

  ghost predicate Named(items: seq<Item>, cursor: Cursor) {
    exists i :: FirstNamed(items, cursor, i)
  }

  const DEFAULT_LIMIT := 50

  /** `findIndex`: the first item that the cursor names, or -1. */
  method FindCursor(items: seq<Item>, stamp: string, id: string) returns (index: int)
    ensures index + 1 == (if FirstAt(items, stamp, id, 0) == -1 then 0 else FirstAt(items, stamp, id, 0))
    ensures index == -1 || 0 <= index < |items|
  {
    for i := 0 to |items|
      invariant FirstAt(items, stamp, id, 0) == FirstAt(items, stamp, id, i)
    {
      if IsAt(items[i], stamp, id) { return i; }
    }
    return -1;
  }

  /** An absent next cursor ends the walk. */
  method Paginate(source: seq<Item>, compare: Comparison, requested: Option<int>, cursor: Cursor) returns (page: Page)
    ensures page == PageAt(Sorted(source, compare), if requested.Some? then requested.value else DEFAULT_LIMIT, cursor)
  {
    var limit := if requested.Some? then requested.value else DEFAULT_LIMIT;
    if limit < 1 || limit > 100 { return NoPage; }
    var items := Sorted(source, compare);
    var start := 0;
    if cursor != Absent {
      if cursor.Malformed? { return NoPage; }
      var index := FindCursor(items, cursor.stamp, cursor.id);
      if index < 0 { return NoPage; }
      start := index + 1;
    }
    page := CutPage(items, limit, start);
  }

  /** The slice, and a cursor at its last item if there are more. */
  method CutPage(items: seq<Item>, limit: int, start: nat) returns (page: Page)
    requires start <= |items| && 1 <= limit
    ensures page == PageFrom(items, limit, start)
  {
    var pageItems := items[start..PageEnd(items, start, limit)];
    var hasMore := start + |pageItems| < |items|;
    return Page(pageItems,
                if hasMore && |pageItems| > 0 then At(pageItems[|pageItems| - 1].stamp, pageItems[|pageItems| - 1].id)
                else Absent);
  }

  // ---- Following the cursor

  datatype Walk = Going(cursor: Cursor, seen: seq<Item>) | Finished(seen: seq<Item>) | Stuck

  function Follow(items: seq<Item>, limit: int, walk: Walk): (r: Walk) {
    if !walk.Going? then walk
    else
      match PageAt(items, limit, walk.cursor)
      case NoPage => Stuck
      case Page(more, next) => if next == Absent then Finished(walk.seen + more) else Going(next, walk.seen + more)
  }

  function After(items: seq<Item>, limits: nat -> int, pages: nat): (r: Walk) {
    if pages == 0 then Going(Absent, []) else Follow(items, limits(pages - 1), After(items, limits, pages - 1))
  }

  ghost predicate InRange(limits: nat -> int) {
    forall k :: 1 <= limits(k) <= 100
  }

  /** Only the last item may repeat an earlier timestamp and id. */
  ghost predicate Resumable(items: seq<Item>) {
    forall i, j :: 0 <= i < j < |items| - 1 ==> !IsAt(items[i], items[j].stamp, items[j].id)
  }

  /** The walk stands behind a prefix of the items. */
  ghost predicate Behind(items: seq<Item>, walk: Walk, pages: nat) {
    match walk
    case Stuck => false
    case Finished(seen) => pages > 0 && seen == items
    case Going(cursor, seen) =>
      && pages <= |seen| <= |items| && seen == items[..|seen|] && (pages > 0 ==> |seen| < |items|)
      && cursor == (if pages == 0 then Absent else At(items[|seen| - 1].stamp, items[|seen| - 1].id))
      && (pages == 0 ==> seen == [])
  }

  lemma ResumesBehind(items: seq<Item>, walk: Walk, pages: nat)
    requires Resumable(items) && Behind(items, walk, pages) && walk.Going?
    ensures Start(items, walk.cursor) == |walk.seen|
  {
    if pages > 0 {
      var last := |walk.seen| - 1;
      assert IsAt(items[last], walk.cursor.stamp, walk.cursor.id);
    }
  }

  lemma FollowStaysBehind(items: seq<Item>, walk: Walk, pages: nat, limit: int)
    requires Resumable(items) && Behind(items, walk, pages) && 1 <= limit <= 100
    ensures Behind(items, Follow(items, limit, walk), pages + 1)
  {
    if walk.Going? {
      ResumesBehind(items, walk, pages);
      PageStaysBehind(items, |walk.seen|, walk.cursor, limit, pages);
    }
  }

  lemma PageStaysBehind(items: seq<Item>, start: nat, cursor: Cursor, limit: int, pages: nat)
    requires start <= |items| && Start(items, cursor) == start && 1 <= limit <= 100
    requires pages <= start && (pages > 0 ==> start < |items|)
    ensures Behind(items, Follow(items, limit, Going(cursor, items[..start])), pages + 1)
  {
    var end := PageEnd(items, start, limit);
    assert items[..start] + items[start..end] == items[..end];
    if end == |items| { assert items[..end] == items; }
  }

  lemma {:induction false} AfterIsBehind(items: seq<Item>, limits: nat -> int, pages: nat)
    requires Resumable(items) && InRange(limits)
    ensures Behind(items, After(items, limits, pages), pages)
  {
    if pages > 0 {
      AfterIsBehind(items, limits, pages - 1);
      FollowStaysBehind(items, After(items, limits, pages - 1), pages - 1, limits(pages - 1));
    }
  }

  /** Following the cursor from the start ends, and the pages together are exactly the sorted
      source: nothing is repeated and nothing missed, whatever the page sizes. */
  lemma WalkIsComplete(source: seq<Item>, compare: Comparison, limits: nat -> int, pages: nat)
    requires forall i, j :: 0 <= i < j < |source| ==> source[i].id != source[j].id
    requires InRange(limits) && pages > |source|
    ensures After(Sorted(source, compare), limits, pages) == Finished(Sorted(source, compare))
    ensures multiset(Sorted(source, compare)) == multiset(source)
    ensures Distinct(Sorted(source, compare))
    ensures Consistent(compare) ==> Ordered(Sorted(source, compare), compare)
  {
    var items := Sorted(source, compare);
    SortedIsSorted(source, compare);
    DistinctPermuted(source, items);
    PermutationLength(source, items);
    DistinctIdsResumable(source, items);
    AfterIsBehind(items, limits, pages);
  }

  lemma DistinctIdsResumable(source: seq<Item>, items: seq<Item>)
    requires forall i, j :: 0 <= i < j < |source| ==> source[i].id != source[j].id
    requires multiset(source) == multiset(items) && Distinct(items)
    ensures Resumable(items)
  {
    PermutationMembers(source, items);
    forall i, j | 0 <= i < j < |items| - 1 ensures !IsAt(items[i], items[j].stamp, items[j].id) {
      assert items[i] in source && items[j] in source;
      var a :| 0 <= a < |source| && source[a] == items[i];
      var b :| 0 <= b < |source| && source[b] == items[j];
      assert a != b;
    }
  }

  // ---- Exactly when pages of one item lead to the end

  /** The walk is caught before item `j`. */
  ghost predicate Caught(items: seq<Item>, walk: Walk, j: nat) {
    && walk.Going?
    && (walk.cursor == Absent ||
        (walk.cursor.At? && exists p :: 0 <= p <= j < |items| && IsAt(items[p], walk.cursor.stamp, walk.cursor.id)))
  }

  lemma StaysCaught(items: seq<Item>, walk: Walk, i: nat, j: nat)
    requires i < j < |items| - 1 && IsAt(items[i], items[j].stamp, items[j].id)
    requires Caught(items, walk, j)
    ensures Caught(items, Follow(items, 1, walk), j)
  {
    var start := Start(items, walk.cursor);
    assert 0 <= start <= j;
    assert PageEnd(items, start, 1) == start + 1;
    assert IsAt(items[start], items[start].stamp, items[start].id);
  }

  lemma {:induction false} AlwaysCaught(items: seq<Item>, limits: nat -> int, i: nat, j: nat, pages: nat)
    requires i < j < |items| - 1 && IsAt(items[i], items[j].stamp, items[j].id)
    requires forall k :: limits(k) == 1
    ensures Caught(items, After(items, limits, pages), j)
  {
    if pages > 0 {
      AlwaysCaught(items, limits, i, j, pages - 1);
      StaysCaught(items, After(items, limits, pages - 1), i, j);
    }
  }

  /** With pages of one item the walk ends if and only if no timestamp and id repeat before
      the last item; otherwise it asks for pages for ever. */
  lemma EndsIffResumable(items: seq<Item>, limits: nat -> int)
    requires forall k :: limits(k) == 1
    ensures (exists pages :: After(items, limits, pages).Finished?) <==> Resumable(items)
  {
    if Resumable(items) {
      var pages := |items| + 1;
      AfterIsBehind(items, limits, pages);
      assert Behind(items, After(items, limits, pages), pages);
      assert After(items, limits, pages).Finished?;
    } else {
      var i, j :| 0 <= i < j < |items| - 1 && IsAt(items[i], items[j].stamp, items[j].id);
      forall pages ensures !After(items, limits, pages).Finished? { AlwaysCaught(items, limits, i, j, pages); }
    }
  }

  /** Whatever the page sizes, the walk ends with exactly the items. */
  ghost predicate AlwaysComplete(items: seq<Item>) {
    forall limits: nat -> int, pages: nat :: InRange(limits) && pages > |items| ==>
      After(items, limits, pages) == Finished(items)
  }

  /** The walk is complete for all page sizes if and only if no timestamp and id repeat before
      the last item. */
  lemma CompleteIffResumable(items: seq<Item>)
    ensures AlwaysComplete(items) <==> Resumable(items)
  {
    if Resumable(items) {
      forall limits: nat -> int, pages: nat | InRange(limits) && pages > |items|
        ensures After(items, limits, pages) == Finished(items)
      {
        AfterIsBehind(items, limits, pages);
      }
    } else {
      var ones: nat -> int := _ => 1;
      EndsIffResumable(items, ones);
      assert InRange(ones) && !After(items, ones, |items| + 1).Finished?;
    }
  }

  /** Other page sizes can also end and repeat an item: pages of two over an item twice and then
      another. */
  lemma RepeatedItemShownAgain(x: Item, y: Item, limits: nat -> int)
    requires !IsAt(y, x.stamp, x.id) && forall k :: limits(k) == 2
    ensures After([x, x, y], limits, 2) == Finished([x, x, x, y])
  {
    var items := [x, x, y];
    assert After(items, limits, 0) == Going(Absent, []);
    assert PageAt(items, 2, Absent) == Page([x, x], At(x.stamp, x.id));
    assert After(items, limits, 1) == Going(At(x.stamp, x.id), [x, x]);
    assert PageAt(items, 2, At(x.stamp, x.id)) == Page([x, y], Absent);
  }

  /** An input that shows it: an item twice, then another. */
  lemma RepeatedItemNeverEnds(x: Item, y: Item, limits: nat -> int, pages: nat)
    requires forall k :: limits(k) == 1
    ensures After([x, x, y], limits, pages).Going?
    ensures pages > 0 ==> After([x, x, y], limits, pages).cursor == At(x.stamp, x.id)
  {
    var items := [x, x, y];
    assert IsAt(items[0], items[1].stamp, items[1].id);
    AlwaysCaught(items, limits, 0, 1, pages);
    if pages > 0 {
      AlwaysCaught(items, limits, 0, 1, pages - 1);
      var walk := After(items, limits, pages - 1);
      var start := Start(items, walk.cursor);
      assert 0 <= start <= 1;
      assert items[start] == x;
    }
  }
}
