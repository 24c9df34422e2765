/**
 What an accepted policy document is like, whatever its text: every mapping in it has distinct
 keys, no line that counts has a tab or an odd indentation, and its rows are nested.
 */
module PolicyAccepted {
  import opened Wrappers
  import opened PolicyDocument
  import opened PolicyRoundTrip
  import opened PolicyPages

  // ---- Distinct keys

  lemma ScalarIsProper(text: string)
    ensures ParseScalar(text).Ok? ==> Proper(ParseScalar(text).value)
  {
  }

  lemma {:induction false} BlockIsProper(rows: seq<Row>, index: nat, indent: nat)
    ensures var r := ParseBlock(rows, index, indent); r.Ok? ==> Proper(r.value.0)
    decreases |rows| - index, 3
  {
    if index < |rows| && rows[index].indent == indent {
      if StartsItem(rows[index].text) {
        ItemsAreProper(rows, index, indent, []);
      } else {
        EntriesAreProper(rows, index, indent, []);
      }
    }
  }

  lemma {:induction false} EntryIsProper(rows: seq<Row>, index: nat, indent: nat, done: seq<Entry>)
    requires index < |rows|
    ensures var r := ParseEntryAt(rows, index, indent, done);
            r.Ok? ==> !HasKey(done, r.value.0.key) && Proper(r.value.0.value)
    decreases |rows| - index, 0
  {
    var split := SplitMapping(rows[index].text);
    if split.Ok? {
      ScalarIsProper(split.value.1);
      if Deeper(rows, index + 1, indent) { BlockIsProper(rows, index + 1, rows[index + 1].indent); }
    }
  }

  lemma {:induction false} EntriesAreProper(rows: seq<Row>, index: nat, indent: nat, done: seq<Entry>)
    requires index <= |rows| && Proper(Map(done))
    ensures var r := ParseEntries(rows, index, indent, done); r.Ok? ==> Proper(r.value.0)
    decreases |rows| - index, 1
  {
    if index < |rows| && rows[index].indent == indent && !StartsItem(rows[index].text) {
      EntryIsProper(rows, index, indent, done);
      var entry := ParseEntryAt(rows, index, indent, done);
      if entry.Ok? {
        OneMoreEntry(done, entry.value.0);
        EntriesAreProper(rows, entry.value.1, indent, done + [entry.value.0]);
      }
    }
  }

  lemma OneMoreEntry(done: seq<Entry>, e: Entry)
    requires Proper(Map(done)) && Proper(e.value) && !HasKey(done, e.key)
    ensures Proper(Map(done + [e]))
  {
    var all := done + [e];
    assert forall i :: 0 <= i < |done| ==> all[i] == done[i];
  }

  lemma {:induction false} ItemIsProper(rows: seq<Row>, index: nat, indent: nat, remainder: string)
    requires index < |rows|
    ensures var r := ParseItem(rows, index, indent, remainder); r.Ok? ==> Proper(r.value.0)
    decreases |rows| - index, 0
  {
    var split := SplitMapping(remainder);
    if split.Ok? {
      ScalarIsProper(split.value.1);
      if Deeper(rows, index + 1, indent) { BlockIsProper(rows, index + 1, rows[index + 1].indent); }
      var key := ParseKey(split.value.0);
      var inline := split.value.1 != [];
      var first := if inline then ParseScalar(split.value.1) else Ok(Null);
      if key.Ok? && first.Ok? && Deeper(rows, index + 1, indent) {
        var child := ParseBlock(rows, index + 1, rows[index + 1].indent);
        if child.Ok? { MergedIsProper(key.value, first.value, inline, child.value.0); }
      }
    }
  }

  lemma MergedIsProper(key: string, first: Node, inline: bool, child: Node)
    requires Proper(first) && Proper(child)
    ensures var r := MergeItem(key, first, inline, child); r.Ok? ==> Proper(r.value) && Proper(FillItem(r.value))
  {
  }

  lemma {:induction false} ItemAtIsProper(rows: seq<Row>, index: nat, indent: nat)
    requires index < |rows| && StartsItem(rows[index].text)
    ensures var r := ParseItemAt(rows, index, indent); r.Ok? ==> Proper(r.value.0)
    decreases |rows| - index, 1
  {
    var remainder := Strip(rows[index].text[2..]);
    ScalarIsProper(remainder);
    if Deeper(rows, index + 1, indent) { BlockIsProper(rows, index + 1, rows[index + 1].indent); }
    ItemIsProper(rows, index, indent, remainder);
  }

  lemma {:induction false} ItemsAreProper(rows: seq<Row>, index: nat, indent: nat, done: seq<Node>)
    requires index <= |rows| && Proper(List(done))
    ensures var r := ParseItems(rows, index, indent, done); r.Ok? ==> Proper(r.value.0)
    decreases |rows| - index, 2
  {
    if index < |rows| && rows[index].indent == indent && StartsItem(rows[index].text) {
      ItemAtIsProper(rows, index, indent);
      var item := ParseItemAt(rows, index, indent);
      if item.Ok? { ItemsAreProper(rows, item.value.1, indent, done + [item.value.0]); }
    }
  }

  /** In an accepted document every mapping has distinct keys: a repeated key is refused, in a
      mapping and in a list item, however deep. */
  lemma AcceptedIsProper(content: string)
    ensures var r := ParseDocument(content); r.Ok? ==> r.value.Map? && Proper(r.value)
  {
    var rows := RowsOf(SplitLines(content));
    if rows.Ok? { BlockIsProper(rows.value, 0, 0); }
  }

  // ---- Tabs and indentation

  /** The line is indented by `n` blanks. */
  predicate IndentedBy(line: string, n: nat) {
    n <= |line| && (forall i :: 0 <= i < n ==> line[i] == ' ') && (n < |line| ==> line[n] != ' ')
  }

  lemma {:induction false} LeadingBlanksAre(line: string)
    ensures IndentedBy(line, LeadingBlanks(line))
  {
    if line != [] && line[0] == ' ' {
      LeadingBlanksAre(line[1..]);
      var n := LeadingBlanks(line[1..]);
      assert forall i :: 0 < i < n + 1 ==> line[i] == line[1..][i - 1];
    }
  }

  /** A line that counts becomes a row, unless it has a tab or an odd indentation. */
  ghost predicate Accepts(line: string, row: Row) {
    '\t' !in line && row.indent % 2 == 0 && IndentedBy(line, row.indent) && row.text == line[row.indent..]
  }

  lemma RowOfIs(line: string, row: Row)
    ensures RowOf(line) == Ok(row) <==> Accepts(line, row)
  {
    LeadingBlanksAre(line);
  }

  /** The rows are the lines that are neither blank nor comments, in order; they are accepted
      exactly when none has a tab or an odd indentation. */
  lemma {:induction false} RowsAreContent(lines: seq<string>, rows: seq<Row>)
    ensures RowsOf(lines) == Ok(rows) <==> Agreeing(Content(lines), rows)
  {
    if lines != [] {
      var n := |lines| - 1;
      IgnoredIsNoise(lines[n]);
      if IsNoise(lines[n]) {
        RowsAreContent(lines[..n], rows);
      } else if rows != [] {
        var fewer, row := rows[..|rows| - 1], rows[|rows| - 1];
        RowsAreContent(lines[..n], fewer);
        RowsOfLast(lines, fewer, row);
        OneMoreRow(RowsOf(lines[..n]), RowsOf(lines), Content(lines[..n]), lines[n], fewer, row);
        assert rows == fewer + [row];
      }
    }
  }

  /** The rows agree with the content lines. */
  ghost predicate Agreeing(content: seq<string>, rows: seq<Row>) {
    |rows| == |content| && forall i :: 0 <= i < |rows| ==> Accepts(content[i], rows[i])
  }

  lemma OneMoreRow(part: Result<seq<Row>>, whole: Result<seq<Row>>, before: seq<string>, last: string,
                   fewer: seq<Row>, row: Row)
    requires part == Ok(fewer) <==> Agreeing(before, fewer)
    requires whole == Ok(fewer + [row]) <==> part == Ok(fewer) && RowOf(last) == Ok(row)
    ensures whole == Ok(fewer + [row]) <==> Agreeing(before + [last], fewer + [row])
  {
    RowOfIs(last, row);
    OneMoreAgrees(before, fewer, last, row);
  }

  lemma RowsOfLast(lines: seq<string>, rows: seq<Row>, row: Row)
    requires lines != [] && !IsIgnored(lines[|lines| - 1])
    ensures RowsOf(lines) == Ok(rows + [row]) <==>
            RowsOf(lines[..|lines| - 1]) == Ok(rows) && RowOf(lines[|lines| - 1]) == Ok(row)
  {
    var before, last := RowsOf(lines[..|lines| - 1]), RowOf(lines[|lines| - 1]);
    if before.Ok? && last.Ok? { AppendedEqual(before.value, last.value, rows, row); }
  }

  lemma AppendedEqual(a: seq<Row>, x: Row, b: seq<Row>, y: Row)
    ensures a + [x] == b + [y] <==> a == b && x == y
  {
    if a + [x] == b + [y] {
      assert (a + [x])[..|a|] == a && (b + [y])[..|b|] == b;
      assert (a + [x])[|a|] == x && (b + [y])[|b|] == y;
    }
  }

  lemma OneMoreAgrees(content: seq<string>, rows: seq<Row>, last: string, row: Row)
    ensures Agreeing(content + [last], rows + [row]) <==> Agreeing(content, rows) && Accepts(last, row)
  {
    var c, r := content + [last], rows + [row];
    if |content| == |rows| {
      assert c[|content|] == last && r[|rows|] == row;
      assert forall i :: 0 <= i < |rows| ==> c[i] == content[i] && r[i] == rows[i];
    }
  }

  // ---- Nesting

  /** The row can have a block below it. */
  predicate Heads(text: string) {
    if StartsItem(text) then Strip(text[2..]) == [] || ':' in Strip(text[2..])
    else SplitMapping(text).Ok? && SplitMapping(text).value.1 == []
  }

  /** `j` is the row before `i` in the same block. */
  ghost predicate Siblings(rows: seq<Row>, j: int, i: int) {
    && 0 <= j < i < |rows| && rows[j].indent == rows[i].indent
    && (StartsItem(rows[j].text) <==> StartsItem(rows[i].text))
    && forall k :: j < k < i ==> rows[k].indent > rows[i].indent
  }

  /** Row `i` opens a block below the row before it, or continues a block begun since `from`. */
  ghost predicate Nested(rows: seq<Row>, from: int, i: int) {
    && 0 < i < |rows|
    && if rows[i].indent > rows[i - 1].indent then Heads(rows[i - 1].text)
       else exists j :: from <= j && Siblings(rows, j, i)
  }

  ghost predicate Deep(rows: seq<Row>, from: int, to: int, indent: int) {
    0 <= from <= to <= |rows| && forall k :: from <= k < to ==> rows[k].indent >= indent
  }

  ghost predicate AllNested(rows: seq<Row>, from: int, to: int) {
    0 <= from <= to <= |rows| && forall i :: from < i < to ==> Nested(rows, from, i)
  }

  /** A block from `from` to `to`. */
  ghost predicate IsBlockOf(rows: seq<Row>, from: int, to: int, indent: int) {
    from < to && Deep(rows, from, to, indent) && rows[from].indent == indent && AllNested(rows, from, to)
  }

  /** The children read so far, the last of them from row `last` on. */
  ghost predicate Begun(rows: seq<Row>, from: int, to: int, indent: int, items: bool) {
    from < to ==>
      && IsBlockOf(rows, from, to, indent)
      && exists last :: from <= last < to && rows[last].indent == indent && StartsItem(rows[last].text) == items &&
                        Deep(rows, last + 1, to, indent + 1)
  }

  /** One more child: its row at `at`, and a deeper block up to `to` if there is one. */
  lemma OneMoreChild(rows: seq<Row>, from: int, at: int, to: int, indent: int, items: bool)
    requires 0 <= from <= at < to <= |rows| && Begun(rows, from, at, indent, items)
    requires rows[at].indent == indent && StartsItem(rows[at].text) == items
    requires at + 1 < to ==> Heads(rows[at].text) && rows[at + 1].indent > indent &&
                             IsBlockOf(rows, at + 1, to, rows[at + 1].indent)
    ensures Begun(rows, from, to, indent, items)
  {
    assert Deep(rows, at + 1, to, indent + 1);
    assert Deep(rows, from, to, indent);
    if from < at {
      var last :| from <= last < at && rows[last].indent == indent && StartsItem(rows[last].text) == items &&
                  Deep(rows, last + 1, at, indent + 1);
      assert Siblings(rows, last, at);
    }
    forall i | from < i < to ensures Nested(rows, from, i) {
      if i > at + 1 { WiderNested(rows, from, at + 1, i); }
    }
  }

  lemma WiderNested(rows: seq<Row>, from: int, later: int, i: int)
    requires from <= later && Nested(rows, later, i)
    ensures Nested(rows, from, i)
  {
  }

  lemma {:induction false} BlockIsNested(rows: seq<Row>, index: nat, indent: nat)
    ensures var r := ParseBlock(rows, index, indent); r.Ok? ==> IsBlockOf(rows, index, r.value.1, indent)
    decreases |rows| - index, 3
  {
    if index < |rows| && rows[index].indent == indent {
      if StartsItem(rows[index].text) {
        ItemsAreNested(rows, index, index, indent, []);
      } else {
        EntriesAreNested(rows, index, index, indent, []);
      }
    }
  }

  /** The rows below a head row, if any, are a block. */
  ghost predicate ChildOf(rows: seq<Row>, at: int, to: int) {
    && 0 <= at < to <= |rows|
    && (at + 1 < to ==> Heads(rows[at].text) && rows[at + 1].indent > rows[at].indent &&
                        IsBlockOf(rows, at + 1, to, rows[at + 1].indent))
  }

  lemma {:induction false} EntryIsNested(rows: seq<Row>, index: nat, indent: nat, done: seq<Entry>)
    requires index < |rows| && rows[index].indent == indent && !StartsItem(rows[index].text)
    ensures var r := ParseEntryAt(rows, index, indent, done); r.Ok? ==> ChildOf(rows, index, r.value.1)
    decreases |rows| - index, 0
  {
    if Deeper(rows, index + 1, indent) { BlockIsNested(rows, index + 1, rows[index + 1].indent); }
  }

  lemma {:induction false} ItemIsNested(rows: seq<Row>, index: nat, indent: nat)
    requires index < |rows| && rows[index].indent == indent && StartsItem(rows[index].text)
    ensures var r := ParseItemAt(rows, index, indent); r.Ok? ==> ChildOf(rows, index, r.value.1)
    decreases |rows| - index, 0
  {
    if Deeper(rows, index + 1, indent) { BlockIsNested(rows, index + 1, rows[index + 1].indent); }
  }

  lemma {:induction false} EntriesAreNested(rows: seq<Row>, from: nat, index: nat, indent: nat, done: seq<Entry>)
    requires from <= index <= |rows| && Begun(rows, from, index, indent, false)
    ensures var r := ParseEntries(rows, index, indent, done);
            r.Ok? ==> from <= r.value.1 && Begun(rows, from, r.value.1, indent, false)
    decreases |rows| - index, 1
  {
    if index < |rows| && rows[index].indent == indent && !StartsItem(rows[index].text) {
      EntryIsNested(rows, index, indent, done);
      var entry := ParseEntryAt(rows, index, indent, done);
      if entry.Ok? {
        OneMoreChild(rows, from, index, entry.value.1, indent, false);
        EntriesAreNested(rows, from, entry.value.1, indent, done + [entry.value.0]);
      }
    }
  }

  lemma {:induction false} ItemsAreNested(rows: seq<Row>, from: nat, index: nat, indent: nat, done: seq<Node>)
    requires from <= index <= |rows| && Begun(rows, from, index, indent, true)
    ensures var r := ParseItems(rows, index, indent, done);
            r.Ok? ==> from <= r.value.1 && Begun(rows, from, r.value.1, indent, true)
    decreases |rows| - index, 1
  {
    if index < |rows| && rows[index].indent == indent && StartsItem(rows[index].text) {
      ItemIsNested(rows, index, indent);
      var item := ParseItemAt(rows, index, indent);
      if item.Ok? {
        OneMoreChild(rows, from, index, item.value.1, indent, true);
        ItemsAreNested(rows, from, item.value.1, indent, done + [item.value.0]);
      }
    }
  }

  /** In an accepted document every row after the first is indented deeper than a row that can
      have a block, or as deep as an earlier row of the same kind with only deeper rows between:
      no row is outdented to a level that was never opened, and no block mixes list items with
      mapping entries. */
  lemma AcceptedIsNested(rows: seq<Row>)
    requires ParseRows(rows).Ok?
    ensures rows != [] && rows[0].indent == 0 && !StartsItem(rows[0].text)
    ensures forall i :: 0 < i < |rows| ==> Nested(rows, 0, i)
  {
    BlockIsNested(rows, 0, 0);
    if StartsItem(rows[0].text) { ItemsAreList(rows, 0, 0, []); }
  }

  lemma {:induction false} ItemsAreList(rows: seq<Row>, index: nat, indent: nat, done: seq<Node>)
    requires index <= |rows|
    ensures var r := ParseItems(rows, index, indent, done); r.Ok? ==> r.value.0.List?
    decreases |rows| - index
  {
    if index < |rows| && rows[index].indent == indent && StartsItem(rows[index].text) {
      var item := ParseItemAt(rows, index, indent);
      if item.Ok? { ItemsAreList(rows, item.value.1, indent, done + [item.value.0]); }
    }
  }
}
