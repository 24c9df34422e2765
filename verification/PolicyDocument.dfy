/**
 The YAML-subset reader of scripts/validate_telegram_policy.py: `split_mapping`,
 `parse_scalar`, `parse_key` and `parse_document`.

 The functions say what is read; the methods are the source's loops and are proved to
 compute them.
 */
module PolicyDocument {
  import opened Wrappers
  import opened Decimals
  import opened Texts
  import J = JsonString

  datatype Node =
    | Null
    | Bool(b: bool)
    | Int(n: int)
    | Str(s: string)
    | List(items: seq<Node>)
    | Map(entries: seq<Entry>)

  datatype Entry = Entry(key: string, value: Node)

  predicate HasKey(entries: seq<Entry>, key: string) {
    exists i :: 0 <= i < |entries| && entries[i].key == key
  }

  // ---- Text

  /** `str.isspace` on one character, also what `str.strip` removes. */
  predicate IsSpace(c: char) {
    var u := c as nat;
    || 9 <= u <= 13 || 28 <= u <= 32 || u == 0x85 || u == 0xA0 || u == 0x1680 || 0x2000 <= u <= 0x200A
    || u == 0x2028 || u == 0x2029 || u == 0x202F || u == 0x205F || u == 0x3000
  }

  /** The 29 characters that Python counts as blanks, and the 10 at which it breaks lines. */
  lemma BlanksAndBreaks(c: char)
    ensures IsSpace(c) <==>
            c as int in {9, 10, 11, 12, 13, 28, 29, 30, 31, 32, 0x85, 0xA0, 0x1680, 0x2000, 0x2001, 0x2002, 0x2003,
                         0x2004, 0x2005, 0x2006, 0x2007, 0x2008, 0x2009, 0x200A, 0x2028, 0x2029, 0x202F, 0x205F, 0x3000}
    ensures IsLineBreak(c) <==> c as int in {10, 11, 12, 13, 28, 29, 30, 0x85, 0x2028, 0x2029}
  {
  }

  function StripStart(s: string): (r: string) {
    if s != [] && IsSpace(s[0]) then StripStart(s[1..]) else s
  }

  function StripEnd(s: string): (r: string) {
    if s != [] && IsSpace(s[|s| - 1]) then StripEnd(s[..|s| - 1]) else s
  }

  function Strip(s: string): (r: string) {
    StripEnd(StripStart(s))
  }

  /** `str.splitlines` boundaries other than the pair CR LF. */
  predicate IsLineBreak(c: char) {
    var u := c as nat;
    10 <= u <= 13 || 28 <= u <= 30 || u == 0x85 || u == 0x2028 || u == 0x2029
  }

  /** The end of the first line. */
  function LineLength(s: string): (n: nat)
    ensures n <= |s|
    ensures forall i :: 0 <= i < n ==> !IsLineBreak(s[i])
    ensures n < |s| ==> IsLineBreak(s[n])
  {
    if s == [] || IsLineBreak(s[0]) then 0 else 1 + LineLength(s[1..])
  }

  function SplitLines(s: string): (lines: seq<string>) {
    if s == [] then []
    else
      var n := LineLength(s);
      if n == |s| then [s]
      else
        var skip := if s[n] == '\r' && n + 1 < |s| && s[n + 1] == '\n' then 2 else 1;
        [s[..n]] + SplitLines(s[n + skip..])
  }

  // ---- Mapping separators

  datatype QuoteState = Unquoted | Double(escaped: bool) | Single

  /** The state after the character at `i`; a doubled single quote keeps the state once, its
      second quote is then judged on its own. */
  function NextQuote(s: string, i: nat, q: QuoteState): (r: QuoteState)
    requires i < |s|
  {
    match q
    case Double(escaped) =>
      if escaped then Double(false)
      else if s[i] == '\\' then Double(true)
      else if s[i] == '"' then Unquoted
      else q
    case Single =>
      if s[i] == '\'' && !(i + 1 < |s| && s[i + 1] == '\'') then Unquoted else q
    case Unquoted =>
      if s[i] == '"' then Double(false) else if s[i] == '\'' then Single else Unquoted
  }

  predicate IsSeparator(s: string, i: nat, q: QuoteState)
    requires i < |s|
  {
    q.Unquoted? && s[i] == ':' && (i + 1 == |s| || IsSpace(s[i + 1]))
  }

  /** The first separator at or after `i`, or the length of the text. */
  function FindSeparator(s: string, i: nat, q: QuoteState): (k: nat)
    requires i <= |s|
    ensures i <= k <= |s|
    decreases |s| - i
  {
    if i == |s| || IsSeparator(s, i, q) then i else FindSeparator(s, i + 1, NextQuote(s, i, q))
  }

  function SplitMapping(s: string): (r: Result<(string, string)>) {
    var k := FindSeparator(s, 0, Unquoted);
    if k == |s| then Refused("mapping entry is missing a separator") else Ok((Strip(s[..k]), Strip(s[k + 1..])))
  }

  method SplitMappingLoop(s: string) returns (r: Result<(string, string)>)
    ensures r == SplitMapping(s)
  {
    var q := Unquoted;
    for i := 0 to |s|
      invariant FindSeparator(s, 0, Unquoted) == FindSeparator(s, i, q)
    {
      if IsSeparator(s, i, q) { return Ok((Strip(s[..i]), Strip(s[i + 1..]))); }
      q := NextQuote(s, i, q);
    }
    return Refused("mapping entry is missing a separator");
  }

  // ---- Scalars

  predicate AllDigits(s: string) {
    s != [] && forall i :: 0 <= i < |s| ==> '0' <= s[i] <= '9'
  }

  /** The pattern `-?[0-9]+`. */
  predicate IsInteger(s: string) {
    AllDigits(s) || (s != [] && s[0] == '-' && AllDigits(s[1..]))
  }

  function IntegerValue(s: string): (n: int)
    requires IsInteger(s)
  {
    if s[0] == '-' then 0 - DecimalValue(s[1..]) else DecimalValue(s)
  }

  function ParseScalar(v: string): (r: Result<Node>) {
    if v == "null" then Ok(Null)
    else if v == "true" then Ok(Bool(true))
    else if v == "false" then Ok(Bool(false))
    else if v == "[]" then Ok(List([]))
    else if v == "{}" then Ok(Map([]))
    else if v != [] && v[0] == '"' then
      var text := J.Decode(v);
      if text.Some? then Ok(Str(text.value)) else Refused("invalid quoted scalar")
    else if v != [] && v[0] == '\'' && v[|v| - 1] == '\'' then
      Ok(Str(if |v| < 2 then [] else Replace(v[1..|v| - 1], "''", "'")))
    else if IsInteger(v) then Ok(Int(IntegerValue(v)))
    else if v == [] || v[0] == '[' || v[0] == '{' then Refused("unsupported scalar")
    else Ok(Str(v))
  }

  function ParseKey(v: string): (r: Result<string>) {
    var scalar := ParseScalar(v);
    if scalar.Refused? then Refused(scalar.reason)
    else if scalar.value.Str? then Ok(scalar.value.s)
    else Refused("mapping key is not a string")
  }

  // ---- Rows

  datatype Row = Row(indent: nat, text: string)

  function LeadingBlanks(s: string): (n: nat)
    ensures n <= |s|
  {
    if s != [] && s[0] == ' ' then 1 + LeadingBlanks(s[1..]) else 0
  }

  predicate IsIgnored(line: string) {
    Strip(line) == [] || (StripStart(line) != [] && StripStart(line)[0] == '#')
  }

  function RowOf(line: string): (r: Result<Row>) {
    if '\t' in line then Refused("tabs are not allowed")
    else if LeadingBlanks(line) % 2 != 0 then Refused("indentation is not a multiple of two")
    else Ok(Row(LeadingBlanks(line), line[LeadingBlanks(line)..]))
  }

  function RowsOf(lines: seq<string>): (r: Result<seq<Row>>) {
    if lines == [] then Ok([])
    else
      var before := RowsOf(lines[..|lines| - 1]);
      var last := lines[|lines| - 1];
      if before.Refused? || IsIgnored(last) then before
      else
        var row := RowOf(last);
        if row.Refused? then Refused(row.reason) else Ok(before.value + [row.value])
  }

  predicate StartsItem(text: string) {
    |text| >= 2 && text[0] == '-' && text[1] == ' '
  }

  // ---- Blocks

  /** A value and the index of the first row after it. */
  type Parsed = Result<(Node, nat)>

  predicate Deeper(rows: seq<Row>, index: nat, indent: nat) {
    index < |rows| && rows[index].indent > indent
  }

  function ParseBlock(rows: seq<Row>, index: nat, indent: nat): (r: Parsed)
    ensures r.Ok? ==> index < r.value.1 <= |rows|
    decreases |rows| - index, 3
  {
    if index >= |rows| || rows[index].indent != indent then Refused("invalid child indentation")
    else if StartsItem(rows[index].text) then ParseItems(rows, index, indent, [])
    else ParseEntries(rows, index, indent, [])
  }

  /** One entry of a mapping block, after the entries already read. */
  function ParseEntryAt(rows: seq<Row>, index: nat, indent: nat, done: seq<Entry>): (r: Result<(Entry, nat)>)
    requires index < |rows|
    ensures r.Ok? ==> index < r.value.1 <= |rows|
    decreases |rows| - index, 0
  {
    var split := SplitMapping(rows[index].text);
    if split.Refused? then Refused(split.reason)
    else
      var key := ParseKey(split.value.0);
      if key.Refused? then Refused(key.reason)
      else if HasKey(done, key.value) then Refused("duplicate key")
      else if split.value.1 != [] then
        var scalar := ParseScalar(split.value.1);
        if scalar.Refused? then Refused(scalar.reason) else Ok((Entry(key.value, scalar.value), index + 1))
      else if Deeper(rows, index + 1, indent) then
        var child := ParseBlock(rows, index + 1, rows[index + 1].indent);
        if child.Refused? then Refused(child.reason) else Ok((Entry(key.value, child.value.0), child.value.1))
      else Ok((Entry(key.value, Map([])), index + 1))
  }

  /** The rest of a mapping block, after the entries already read. */
  function ParseEntries(rows: seq<Row>, index: nat, indent: nat, done: seq<Entry>): (r: Parsed)
    requires index <= |rows|
    ensures r.Ok? ==> index <= r.value.1 <= |rows|
    ensures r.Ok? && index < |rows| && rows[index].indent >= indent ==> index < r.value.1
    decreases |rows| - index, 1
  {
    if index == |rows| || rows[index].indent < indent then Ok((Map(done), index))
    else if rows[index].indent != indent then Refused("unexpected indentation")
    else if StartsItem(rows[index].text) then Refused("unexpected list item")
    else
      var entry := ParseEntryAt(rows, index, indent, done);
      if entry.Refused? then Refused(entry.reason)
      else ParseEntries(rows, entry.value.1, indent, done + [entry.value.0])
  }

  /** A list item that is itself a mapping: its first entry, merged with the deeper rows. */
  function MergeItem(key: string, first: Node, inline: bool, child: Node): (r: Result<Node>) {
    if !child.Map? then Refused("list item child is not a mapping")
    else if !inline then Ok(Map([Entry(key, child)]))
    else if HasKey(child.entries, key) then Refused("duplicate list item key")
    else Ok(Map([Entry(key, first)] + child.entries))
  }

  /** A single null entry becomes an empty mapping. */
  function FillItem(item: Node): (r: Node) {
    if item.Map? && |item.entries| == 1 && item.entries[0].value == Null
    then Map([Entry(item.entries[0].key, Map([]))])
    else item
  }

  /** One item whose text after the dash is a mapping entry. */
  function ParseItem(rows: seq<Row>, index: nat, indent: nat, remainder: string): (r: Parsed)
    requires index < |rows|
    ensures r.Ok? ==> index < r.value.1 <= |rows|
    decreases |rows| - index, 0
  {
    var split := SplitMapping(remainder);
    if split.Refused? then Refused(split.reason)
    else
      var key := ParseKey(split.value.0);
      if key.Refused? then Refused(key.reason)
      else
        var inline := split.value.1 != [];
        var first := if inline then ParseScalar(split.value.1) else Ok(Null);
        if first.Refused? then Refused(first.reason)
        else if Deeper(rows, index + 1, indent) then
          var child := ParseBlock(rows, index + 1, rows[index + 1].indent);
          if child.Refused? then child
          else
            var item := MergeItem(key.value, first.value, inline, child.value.0);
            if item.Refused? then Refused(item.reason) else Ok((FillItem(item.value), child.value.1))
        else Ok((FillItem(Map([Entry(key.value, first.value)])), index + 1))
  }

  /** One list item. */
  function ParseItemAt(rows: seq<Row>, index: nat, indent: nat): (r: Parsed)
    requires index < |rows| && StartsItem(rows[index].text)
    ensures r.Ok? ==> index < r.value.1 <= |rows|
    decreases |rows| - index, 1
  {
    var remainder := Strip(rows[index].text[2..]);
    if remainder == [] then
      if Deeper(rows, index + 1, indent) then ParseBlock(rows, index + 1, rows[index + 1].indent)
      else Ok((Null, index + 1))
    else if ':' !in remainder then
      var scalar := ParseScalar(remainder);
      if scalar.Refused? then Refused(scalar.reason) else Ok((scalar.value, index + 1))
    else ParseItem(rows, index, indent, remainder)
  }

  /** The rest of a list block, after the items already read. */
  function ParseItems(rows: seq<Row>, index: nat, indent: nat, done: seq<Node>): (r: Parsed)
    requires index <= |rows|
    ensures r.Ok? ==> index <= r.value.1 <= |rows|
    ensures r.Ok? && index < |rows| && rows[index].indent >= indent ==> index < r.value.1
    decreases |rows| - index, 2
  {
    if index == |rows| || rows[index].indent < indent then Ok((List(done), index))
    else if rows[index].indent != indent then Refused("unexpected indentation")
    else if !StartsItem(rows[index].text) then Refused("mixed list and mapping")
    else
      var item := ParseItemAt(rows, index, indent);
      if item.Refused? then item else ParseItems(rows, item.value.1, indent, done + [item.value.0])
  }

  function ParseRows(rows: seq<Row>): (r: Result<Node>) {
    if rows == [] || rows[0].indent != 0 then Refused("document must start at indentation zero")
    else
      var block := ParseBlock(rows, 0, 0);
      if block.Refused? then Refused(block.reason)
      else if block.value.1 != |rows| then Refused("trailing document content")
      else if !block.value.0.Map? then Refused("document root is not a mapping")
      else Ok(block.value.0)
  }

  function ParseDocument(content: string): (r: Result<Node>) {
    var rows := RowsOf(SplitLines(content));
    if rows.Refused? then Refused(rows.reason) else ParseRows(rows.value)
  }

  // ---- The loops

  method ParseEntriesLoop(rows: seq<Row>, start: nat, indent: nat) returns (r: Parsed)
    requires start < |rows|
    ensures r == ParseEntries(rows, start, indent, [])
    decreases |rows| - start, 1
  {
    var index, entries := start, [];
    while index < |rows|
      invariant start <= index <= |rows|
      invariant ParseEntries(rows, start, indent, []) == ParseEntries(rows, index, indent, entries)
      decreases |rows| - index
    {
      var row := rows[index];
      if row.indent < indent { break; }
      if row.indent != indent { return Refused("unexpected indentation"); }
      if StartsItem(row.text) { return Refused("unexpected list item"); }
      var entry := ParseEntryRow(rows, index, indent, entries);
      if entry.Refused? { return Refused(entry.reason); }
      entries, index := entries + [entry.value.0], entry.value.1;
    }
    return Ok((Map(entries), index));
  }

  method ParseEntryRow(rows: seq<Row>, index: nat, indent: nat, entries: seq<Entry>) returns (r: Result<(Entry, nat)>)
    requires index < |rows|
    ensures r == ParseEntryAt(rows, index, indent, entries)
    decreases |rows| - index, 0
  {
    var split := SplitMappingLoop(rows[index].text);
    if split.Refused? { return Refused(split.reason); }
    var key := ParseKey(split.value.0);
    if key.Refused? { return Refused(key.reason); }
    if HasKey(entries, key.value) { return Refused("duplicate key"); }
    if split.value.1 != [] {
      var scalar := ParseScalar(split.value.1);
      if scalar.Refused? { return Refused(scalar.reason); }
      return Ok((Entry(key.value, scalar.value), index + 1));
    }
    if Deeper(rows, index + 1, indent) {
      var child := ParseBlockLoop(rows, index + 1, rows[index + 1].indent);
      if child.Refused? { return Refused(child.reason); }
      return Ok((Entry(key.value, child.value.0), child.value.1));
    }
    return Ok((Entry(key.value, Map([])), index + 1));
  }

  method ParseItemStep(rows: seq<Row>, index: nat, indent: nat, remainder: string) returns (r: Parsed)
    requires index < |rows|
    ensures r == ParseItem(rows, index, indent, remainder)
    decreases |rows| - index, 0
  {
    var split := SplitMappingLoop(remainder);
    if split.Refused? { return Refused(split.reason); }
    var key := ParseKey(split.value.0);
    if key.Refused? { return Refused(key.reason); }
    var inline := split.value.1 != [];
    var first := if inline then ParseScalar(split.value.1) else Ok(Null);
    if first.Refused? { return Refused(first.reason); }
    var item, next := Map([Entry(key.value, first.value)]), index + 1;
    if Deeper(rows, index + 1, indent) {
      var child := ParseBlockLoop(rows, index + 1, rows[index + 1].indent);
      if child.Refused? { return child; }
      var merged := MergeItem(key.value, first.value, inline, child.value.0);
      if merged.Refused? { return Refused(merged.reason); }
      item, next := merged.value, child.value.1;
    }
    return Ok((FillItem(item), next));
  }

  method ParseItemsLoop(rows: seq<Row>, start: nat, indent: nat) returns (r: Parsed)
    requires start < |rows|
    ensures r == ParseItems(rows, start, indent, [])
    decreases |rows| - start, 2
  {
    var index, items := start, [];
    while index < |rows|
      invariant start <= index <= |rows|
      invariant ParseItems(rows, start, indent, []) == ParseItems(rows, index, indent, items)
      decreases |rows| - index
    {
      var row := rows[index];
      if row.indent < indent { break; }
      if row.indent != indent { return Refused("unexpected indentation"); }
      if !StartsItem(row.text) { return Refused("mixed list and mapping"); }
      var item := ParseItemRow(rows, index, indent);
      if item.Refused? { return item; }
      items, index := items + [item.value.0], item.value.1;
    }
    return Ok((List(items), index));
  }

  method ParseItemRow(rows: seq<Row>, index: nat, indent: nat) returns (r: Parsed)
    requires index < |rows| && StartsItem(rows[index].text)
    ensures r == ParseItemAt(rows, index, indent)
    decreases |rows| - index, 1
  {
    var remainder := Strip(rows[index].text[2..]);
    if remainder == [] {
      if Deeper(rows, index + 1, indent) {
        r := ParseBlockLoop(rows, index + 1, rows[index + 1].indent);
      } else {
        r := Ok((Null, index + 1));
      }
    } else if ':' !in remainder {
      var scalar := ParseScalar(remainder);
      r := if scalar.Refused? then Refused(scalar.reason) else Ok((scalar.value, index + 1));
    } else {
      r := ParseItemStep(rows, index, indent, remainder);
    }
  }

  method ParseBlockLoop(rows: seq<Row>, index: nat, indent: nat) returns (r: Parsed)
    ensures r == ParseBlock(rows, index, indent)
    decreases |rows| - index, 3
  {
    if index >= |rows| || rows[index].indent != indent { return Refused("invalid child indentation"); }
    if StartsItem(rows[index].text) {
      r := ParseItemsLoop(rows, index, indent);
    } else {
      r := ParseEntriesLoop(rows, index, indent);
    }
  }

  method ParseDocumentLoop(content: string) returns (r: Result<Node>)
    ensures r == ParseDocument(content)
  {
    var lines := SplitLines(content);
    var rows: seq<Row> := [];
    for i := 0 to |lines|
      invariant RowsOf(lines[..i]) == Ok(rows)
    {
      assert lines[..i + 1][..i] == lines[..i];
      if !IsIgnored(lines[i]) {
        var row := RowOf(lines[i]);
        if row.Refused? {
          RefusedRow(lines, i + 1);
          return Refused(row.reason);
        }
        rows := rows + [row.value];
      }
    }
    assert lines[..|lines|] == lines;
    if rows == [] || rows[0].indent != 0 { return Refused("document must start at indentation zero"); }
    var block := ParseBlockLoop(rows, 0, 0);
    if block.Refused? { return Refused(block.reason); }
    if block.value.1 != |rows| { return Refused("trailing document content"); }
    if !block.value.0.Map? { return Refused("document root is not a mapping"); }
    return Ok(block.value.0);
  }

  lemma {:induction false} RefusedRow(lines: seq<string>, n: nat)
    requires n <= |lines| && RowsOf(lines[..n]).Refused?
    ensures RowsOf(lines) == RowsOf(lines[..n])
    decreases |lines|
  {
    if n < |lines| {
      var shorter := lines[..|lines| - 1];
      assert shorter[..n] == lines[..n];
      RefusedRow(shorter, n);
    } else {
      assert lines[..n] == lines;
    }
  }
}
