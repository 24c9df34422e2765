/**
 A printer for policy documents, and the proof that reading what it prints gives the document
 back.  The writer chooses how each key and each string is quoted, how far each block is
 indented, which of three shapes a mapping in a list has, and whether an empty mapping or a
 null item is written at all.
 */
module PolicyRoundTrip {
  import opened Wrappers
  import opened PolicyDocument
  import opened PolicyText
  import J = JsonString

  // ---- Documents

  ghost predicate DistinctKeys(es: seq<Entry>) {
    forall i, j :: 0 <= i < j < |es| ==> es[i].key != es[j].key
  }

  /** Every mapping in the tree has distinct keys. */
  ghost predicate Proper(n: Node) {
    match n
    case Map(entries) => DistinctKeys(entries) && forall i :: 0 <= i < |entries| ==> Proper(entries[i].value)
    case List(items) => forall i :: 0 <= i < |items| ==> Proper(items[i])
    case _ => true
  }

  // ---- Printing

  /** A mapping in a list: as a deeper block below its dash; with its first entry behind the
      dash and the others below; or with its only key behind the dash and the value below. */
  datatype Shape = Below | Inline | Heading

  /** The writer's choices: the wished shape of each mapping in a list, further indentation of each
      block, the quoting of keys and of strings, and whether empty mappings and null items are
      left blank. */
  datatype Style = Style(
    shape: Node -> Shape, indent: Node -> nat, key: string -> Quoting, text: string -> Quoting,
    blankMap: string -> bool, blankItem: bool)

  /** How much deeper a block is indented than its head line. */
  function Step(n: Node, style: Style): (d: nat)
    ensures d >= 2 && d % 2 == 0
  {
    2 + 2 * style.indent(n)
  }

  predicate FitsInline(n: Node) {
    && n.Map? && n.entries != [] && IsLeaf(n.entries[0].value)
    && !(|n.entries| == 1 && n.entries[0].value == Null)
  }

  predicate FitsHeading(n: Node) {
    n.Map? && |n.entries| == 1 && n.entries[0].value.Map?
  }

  function ShapeOf(n: Node, style: Style): (shape: Shape)
    ensures shape.Inline? ==> FitsInline(n)
    ensures shape.Heading? ==> FitsHeading(n)
  {
    if style.shape(n).Inline? && FitsInline(n) then Inline
    else if style.shape(n).Heading? && FitsHeading(n) then Heading
    else Below
  }

  /** A row with the texts written for its key and its value. */
  datatype Line =
    | LeafLine(indent: nat, entry: Entry, key: string, value: string)
    | HeadingLine(indent: nat, entry: Entry, key: string)
    | ItemLine(indent: nat, item: Node, value: string)
    | BelowLine(indent: nat)
    | InlineLine(indent: nat, entry: Entry, key: string, value: string)
    | HeadingItemLine(indent: nat, entry: Entry, key: string)

  predicate IsItem(l: Line) {
    !l.LeafLine? && !l.HeadingLine?
  }

  predicate IsBlock(n: Node) { n.Map? || n.List? }

  function Arity(n: Node): (k: nat) {
    match n
    case Map(entries) => |entries|
    case List(items) => |items|
    case _ => 0
  }

  /** The lines of a block from its `k`-th child on. */
  function PrintFrom(n: Node, k: nat, indent: nat, style: Style): (lines: seq<Line>)
    requires IsBlock(n) && k <= Arity(n)
    decreases n, Arity(n) - k, 1
  {
    if k == Arity(n) then [] else PrintChild(n, k, indent, style) + PrintFrom(n, k + 1, indent, style)
  }

  function PrintChild(n: Node, k: nat, indent: nat, style: Style): (lines: seq<Line>)
    requires IsBlock(n) && k < Arity(n)
    ensures lines != [] && lines[0].indent == indent && (IsItem(lines[0]) <==> n.List?)
    decreases n, Arity(n) - k, 0
  {
    match n
    case Map(entries) => PrintEntry(entries[k], indent, style)
    case List(items) =>
      if items[k] == Null && style.blankItem then [BelowLine(indent)]
      else if IsLeaf(items[k]) then [ItemLine(indent, items[k], WriteItem(items[k], style.text))]
      else PrintNested(items[k], indent, style)
  }

  function KeyText(e: Entry, style: Style): (s: string) {
    WriteKey(e.key, style.key(e.key))
  }

  function PrintEntry(e: Entry, indent: nat, style: Style): (lines: seq<Line>)
    ensures lines != [] && lines[0].indent == indent && !IsItem(lines[0])
    decreases e, 0, 3
  {
    if e.value == Map([]) && style.blankMap(e.key) then [HeadingLine(indent, e, KeyText(e, style))]
    else if IsLeaf(e.value) then [LeafLine(indent, e, KeyText(e, style), WriteLeaf(e.value, style.text))]
    else [HeadingLine(indent, e, KeyText(e, style))] + PrintFrom(e.value, 0, indent + Step(e.value, style), style)
  }

  /** A list item that is no leaf. */
  function PrintNested(x: Node, indent: nat, style: Style): (lines: seq<Line>)
    requires !IsLeaf(x)
    ensures lines != [] && lines[0].indent == indent && IsItem(lines[0])
    decreases x, Arity(x), 3
  {
    [HeadOf(x, indent, style)] + BodyOf(x, indent, style)
  }

  function HeadOf(x: Node, indent: nat, style: Style): (l: Line)
    requires !IsLeaf(x)
    ensures l.indent == indent && IsItem(l)
  {
    match ShapeOf(x, style)
    case Below => BelowLine(indent)
    case Inline =>
      var e := x.entries[0];
      InlineLine(indent, e, KeyText(e, style), WriteLeaf(e.value, style.text))
    case Heading => HeadingItemLine(indent, x.entries[0], KeyText(x.entries[0], style))
  }

  function BodyOf(x: Node, indent: nat, style: Style): (lines: seq<Line>)
    requires !IsLeaf(x)
    decreases x, Arity(x), 2
  {
    match ShapeOf(x, style)
    case Below => PrintFrom(x, 0, indent + Step(x, style), style)
    case Inline => PrintFrom(x, 1, indent + Step(x, style), style)
    case Heading => PrintFrom(x.entries[0].value, 0, indent + Step(x, style), style)
  }

  function LineText(l: Line): (s: string) {
    match l
    case HeadingLine(_, _, key) => key + ":"
    case LeafLine(_, _, key, value) => EntryText(key, value)
    case ItemLine(_, _, value) => "- " + value
    case BelowLine(_) => "- "
    case InlineLine(_, _, key, value) => "- " + EntryText(key, value)
    case HeadingItemLine(_, _, key) => "- " + (key + ":")
  }

  /** The texts of the line are read as what they are written for. */
  ghost predicate Written(l: Line) {
    match l
    case HeadingLine(_, e, key) => KeyReads(key, e.key)
    case LeafLine(_, e, key, value) => KeyReads(key, e.key) && ScalarReads(value, e.value)
    case ItemLine(_, n, value) => ScalarReads(value, n) && ':' !in value
    case BelowLine(_) => true
    case InlineLine(_, e, key, value) => KeyReads(key, e.key) && ScalarReads(value, e.value)
    case HeadingItemLine(_, e, key) => KeyReads(key, e.key)
  }

  ghost predicate AllWritten(lines: seq<Line>) {
    forall i :: 0 <= i < |lines| ==> Written(lines[i]) && lines[i].indent % 2 == 0
  }

  function ToRow(l: Line): (r: Row) {
    Row(l.indent, LineText(l))
  }

  function ToRows(lines: seq<Line>): (rows: seq<Row>) {
    seq(|lines|, i requires 0 <= i < |lines| => ToRow(lines[i]))
  }

  function Blanks(n: nat): (s: string)
    ensures |s| == n && forall i :: 0 <= i < n ==> s[i] == ' '
  {
    seq(n, i => ' ')
  }

  // ---- What the parser does with one row

  lemma LeafEntry(rows: seq<Row>, at: nat, indent: nat, done: seq<Entry>, text: (string, string), e: Entry)
    requires at < |rows| && rows[at].indent == indent && !StartsItem(rows[at].text)
    requires SplitMapping(rows[at].text) == Ok(text) && text.1 != []
    requires ParseKey(text.0) == Ok(e.key) && !HasKey(done, e.key) && ParseScalar(text.1) == Ok(e.value)
    ensures ParseEntries(rows, at, indent, done) == ParseEntries(rows, at + 1, indent, done + [e])
  {
  }

  lemma HeadingEntry(rows: seq<Row>, at: nat, indent: nat, done: seq<Entry>, key: string, e: Entry, next: nat)
    requires at < |rows| && rows[at].indent == indent && !StartsItem(rows[at].text)
    requires SplitMapping(rows[at].text) == Ok((key, [])) && ParseKey(key) == Ok(e.key) && !HasKey(done, e.key)
    requires Deeper(rows, at + 1, indent)
    requires ParseBlock(rows, at + 1, rows[at + 1].indent) == Ok((e.value, next))
    ensures ParseEntries(rows, at, indent, done) == ParseEntries(rows, next, indent, done + [e])
  {
  }

  lemma BlankEntry(rows: seq<Row>, at: nat, indent: nat, done: seq<Entry>, key: string, e: Entry)
    requires at < |rows| && rows[at].indent == indent && !StartsItem(rows[at].text)
    requires SplitMapping(rows[at].text) == Ok((key, [])) && ParseKey(key) == Ok(e.key) && !HasKey(done, e.key)
    requires !Deeper(rows, at + 1, indent) && e.value == Map([])
    ensures ParseEntries(rows, at, indent, done) == ParseEntries(rows, at + 1, indent, done + [e])
  {
  }

  lemma OneItem(rows: seq<Row>, at: nat, indent: nat, done: seq<Node>, item: Node, next: nat)
    requires at < |rows| && rows[at].indent == indent && StartsItem(rows[at].text)
    requires ParseItemAt(rows, at, indent) == Ok((item, next))
    ensures ParseItems(rows, at, indent, done) == ParseItems(rows, next, indent, done + [item])
  {
  }

  /** An item whose text has no colon is a scalar. */
  lemma ScalarItem(rows: seq<Row>, at: nat, indent: nat, text: string, item: Node)
    requires at < |rows| && rows[at].text == "- " + text && Solid(text) && ':' !in text && ParseScalar(text) == Ok(item)
    ensures StartsItem(rows[at].text) && ParseItemAt(rows, at, indent) == Ok((item, at + 1))
  {
    ItemRemainder(text);
  }

  /** A dash alone heads the deeper block. */
  lemma BelowItem(rows: seq<Row>, at: nat, indent: nat)
    requires at < |rows| && rows[at].text == "- " && Deeper(rows, at + 1, indent)
    ensures StartsItem(rows[at].text) && ParseItemAt(rows, at, indent) == ParseBlock(rows, at + 1, rows[at + 1].indent)
  {
    EmptyRemainder();
  }

  /** A dash alone with nothing deeper is null. */
  lemma BlankItem(rows: seq<Row>, at: nat, indent: nat)
    requires at < |rows| && rows[at].text == "- " && !Deeper(rows, at + 1, indent)
    ensures StartsItem(rows[at].text) && ParseItemAt(rows, at, indent) == Ok((Null, at + 1))
  {
    EmptyRemainder();
  }

  lemma MappingItem(rows: seq<Row>, at: nat, indent: nat, text: string)
    requires at < |rows| && rows[at].text == "- " + text && Solid(text) && ':' in text
    ensures StartsItem(rows[at].text) && ParseItemAt(rows, at, indent) == ParseItem(rows, at, indent, text)
  {
    ItemRemainder(text);
  }

  /** An entry behind the dash joins the mapping of the deeper rows, in front of it. */
  lemma InlineItem(rows: seq<Row>, at: nat, indent: nat, text: string, parts: (string, string), e: Entry,
                   rest: seq<Entry>, next: nat)
    requires at < |rows| && SplitMapping(text) == Ok(parts) && parts.1 != []
    requires ParseKey(parts.0) == Ok(e.key) && ParseScalar(parts.1) == Ok(e.value)
    requires Deeper(rows, at + 1, indent) && ParseBlock(rows, at + 1, rows[at + 1].indent) == Ok((Map(rest), next))
    requires rest != [] && !HasKey(rest, e.key)
    ensures ParseItem(rows, at, indent, text) == Ok((Map([e] + rest), next))
  {
    assert Entry(e.key, e.value) == e;
  }

  /** An entry behind the dash alone is a mapping of its own, except that null becomes an empty
      mapping. */
  lemma LoneItem(rows: seq<Row>, at: nat, indent: nat, text: string, parts: (string, string), e: Entry, read: Entry)
    requires at < |rows| && SplitMapping(text) == Ok(parts) && parts.1 != []
    requires ParseKey(parts.0) == Ok(e.key) && ParseScalar(parts.1) == Ok(e.value)
    requires !Deeper(rows, at + 1, indent) && read == if e.value == Null then Entry(e.key, Map([])) else e
    ensures ParseItem(rows, at, indent, text) == Ok((Map([read]), at + 1))
  {
    assert Entry(e.key, e.value) == e;
    assert [e][0] == e;
  }

  /** A key alone behind the dash takes the deeper mapping as its value. */
  lemma HeadingItem(rows: seq<Row>, at: nat, indent: nat, text: string, key: string, e: Entry, next: nat)
    requires at < |rows| && SplitMapping(text) == Ok((key, [])) && ParseKey(key) == Ok(e.key) && e.value.Map?
    requires Deeper(rows, at + 1, indent) && ParseBlock(rows, at + 1, rows[at + 1].indent) == Ok((e.value, next))
    ensures ParseItem(rows, at, indent, text) == Ok((Map([e]), next))
  {
    assert Entry(e.key, e.value) == e;
  }

  /** A key alone behind the dash with nothing deeper has an empty mapping. */
  lemma BlankHeadingItem(rows: seq<Row>, at: nat, indent: nat, text: string, key: string, e: Entry)
    requires at < |rows| && SplitMapping(text) == Ok((key, [])) && ParseKey(key) == Ok(e.key) && e.value == Map([])
    requires !Deeper(rows, at + 1, indent)
    ensures ParseItem(rows, at, indent, text) == Ok((Map([e]), at + 1))
  {
    assert Entry(e.key, Null) == [Entry(e.key, Null)][0];
    assert Entry(e.key, e.value) == e;
  }

  // ---- What reading a printed line does

  /** The parsers of both kinds of block on printed lines, as total functions. */
  function ParseMap(lines: seq<Line>, at: nat, indent: nat, done: seq<Entry>): (r: Parsed) {
    if at <= |lines| then ParseEntries(ToRows(lines), at, indent, done) else Refused("out of range")
  }

  function ParseList(lines: seq<Line>, at: nat, indent: nat, done: seq<Node>): (r: Parsed) {
    if at <= |lines| then ParseItems(ToRows(lines), at, indent, done) else Refused("out of range")
  }

  type MapReader = (nat, nat, seq<Entry>) -> Parsed
  type ListReader = (nat, nat, seq<Node>) -> Parsed

  /** The block that starts at a line. */
  function BlockOf(f: MapReader, g: ListReader, lines: seq<Line>, at: nat, indent: nat): (r: Parsed) {
    if at < |lines| && IsItem(lines[at]) then g(at, indent, []) else f(at, indent, [])
  }

  function MapParser(lines: seq<Line>): (f: MapReader) {
    (at: nat, indent: nat, done: seq<Entry>) => ParseMap(lines, at, indent, done)
  }

  function ListParser(lines: seq<Line>): (g: ListReader) {
    (at: nat, indent: nat, done: seq<Node>) => ParseList(lines, at, indent, done)
  }

  ghost predicate EndsAt(lines: seq<Line>, at: nat, indent: nat) {
    at <= |lines| && (at < |lines| ==> lines[at].indent < indent)
  }

  ghost predicate DeeperAt(lines: seq<Line>, at: nat, indent: nat) {
    at < |lines| && lines[at].indent > indent
  }

  ghost predicate LeafAt(lines: seq<Line>, at: nat, indent: nat, e: Entry) {
    at < |lines| && lines[at].LeafLine? && lines[at].indent == indent && lines[at].entry == e
  }

  ghost predicate HeadingAt(lines: seq<Line>, at: nat, indent: nat, e: Entry) {
    && at < |lines| && lines[at].HeadingLine? && lines[at].indent == indent && lines[at].entry == e
    && DeeperAt(lines, at + 1, indent)
  }

  ghost predicate BlankAt(lines: seq<Line>, at: nat, indent: nat, e: Entry) {
    && at < |lines| && lines[at].HeadingLine? && lines[at].indent == indent && lines[at].entry == e
    && e.value == Map([]) && EndsAt(lines, at + 1, indent + 1)
  }

  ghost predicate ItemAt(lines: seq<Line>, at: nat, indent: nat, n: Node) {
    at < |lines| && lines[at].ItemLine? && lines[at].indent == indent && lines[at].item == n
  }

  ghost predicate BelowAt(lines: seq<Line>, at: nat, indent: nat) {
    at < |lines| && lines[at] == BelowLine(indent) && DeeperAt(lines, at + 1, indent)
  }

  ghost predicate BlankItemAt(lines: seq<Line>, at: nat, indent: nat) {
    at < |lines| && lines[at] == BelowLine(indent) && EndsAt(lines, at + 1, indent + 1)
  }

  ghost predicate InlineAt(lines: seq<Line>, at: nat, indent: nat, e: Entry) {
    && at < |lines| && lines[at].InlineLine? && lines[at].indent == indent && lines[at].entry == e
    && DeeperAt(lines, at + 1, indent) && !IsItem(lines[at + 1])
  }

  ghost predicate LoneAt(lines: seq<Line>, at: nat, indent: nat, e: Entry) {
    && at < |lines| && lines[at].InlineLine? && lines[at].indent == indent && lines[at].entry == e
    && e.value != Null && EndsAt(lines, at + 1, indent + 1)
  }

  ghost predicate HeadingItemAt(lines: seq<Line>, at: nat, indent: nat, e: Entry) {
    && at < |lines| && lines[at].HeadingItemLine? && lines[at].indent == indent && lines[at].entry == e
    && DeeperAt(lines, at + 1, indent) && !IsItem(lines[at + 1])
  }

  ghost predicate BlankHeadingAt(lines: seq<Line>, at: nat, indent: nat, e: Entry) {
    && at < |lines| && lines[at].HeadingItemLine? && lines[at].indent == indent && lines[at].entry == e
    && e.value == Map([]) && EndsAt(lines, at + 1, indent + 1)
  }

  lemma TextStarts(l: Line)
    requires Written(l)
    ensures StartsItem(LineText(l)) <==> IsItem(l)
  {
    match l
    case LeafLine(_, e, key, value) => EntryReads(key, value);
    case HeadingLine(_, e, key) => HeadingReads(key);
    case _ => assert LineText(l)[0] == '-' && LineText(l)[1] == ' ';
  }

  lemma RowAt(lines: seq<Line>, at: nat)
    requires at < |lines|
    ensures ToRows(lines)[at] == Row(lines[at].indent, LineText(lines[at])) && |ToRows(lines)| == |lines|
  {
  }

  lemma BlockIs(lines: seq<Line>, at: nat)
    requires AllWritten(lines) && at < |lines|
    ensures BlockOf(MapParser(lines), ListParser(lines), lines, at, lines[at].indent) ==
            ParseBlock(ToRows(lines), at, lines[at].indent)
  {
    RowAt(lines, at);
    TextStarts(lines[at]);
  }

  /** The rows behind a head line are deeper, or none is. */
  lemma Depth(lines: seq<Line>, at: nat, indent: nat)
    ensures DeeperAt(lines, at, indent) ==> Deeper(ToRows(lines), at, indent)
    ensures EndsAt(lines, at, indent + 1) ==> !Deeper(ToRows(lines), at, indent)
  {
    if at < |lines| { RowAt(lines, at); }
  }

  lemma LeafStep(lines: seq<Line>, at: nat, indent: nat, done: seq<Entry>, e: Entry)
    requires AllWritten(lines) && LeafAt(lines, at, indent, e) && !HasKey(done, e.key)
    ensures ParseMap(lines, at, indent, done) == ParseMap(lines, at + 1, indent, done + [e])
  {
    var LeafLine(_, _, key, value) := lines[at];
    assert Written(lines[at]);
    EntryReads(key, value);
    RowAt(lines, at);
    LeafEntry(ToRows(lines), at, indent, done, (key, value), e);
  }

  lemma HeadingStep(lines: seq<Line>, at: nat, indent: nat, done: seq<Entry>, e: Entry, next: nat)
    requires AllWritten(lines) && HeadingAt(lines, at, indent, e) && !HasKey(done, e.key)
    requires BlockOf(MapParser(lines), ListParser(lines), lines, at + 1, lines[at + 1].indent) == Ok((e.value, next))
    ensures ParseMap(lines, at, indent, done) == ParseMap(lines, next, indent, done + [e])
  {
    assert Written(lines[at]);
    HeadingReads(lines[at].key);
    RowAt(lines, at);
    RowAt(lines, at + 1);
    BlockIs(lines, at + 1);
    HeadingEntry(ToRows(lines), at, indent, done, lines[at].key, e, next);
  }

  lemma BlankStep(lines: seq<Line>, at: nat, indent: nat, done: seq<Entry>, e: Entry)
    requires AllWritten(lines) && BlankAt(lines, at, indent, e) && !HasKey(done, e.key)
    ensures ParseMap(lines, at, indent, done) == ParseMap(lines, at + 1, indent, done + [e])
  {
    assert Written(lines[at]);
    HeadingReads(lines[at].key);
    RowAt(lines, at);
    Depth(lines, at + 1, indent);
    BlankEntry(ToRows(lines), at, indent, done, lines[at].key, e);
  }

  lemma ItemStep(lines: seq<Line>, at: nat, indent: nat, done: seq<Node>, n: Node)
    requires AllWritten(lines) && ItemAt(lines, at, indent, n)
    ensures ParseList(lines, at, indent, done) == ParseList(lines, at + 1, indent, done + [n])
  {
    assert Written(lines[at]);
    RowAt(lines, at);
    ScalarItem(ToRows(lines), at, indent, lines[at].value, n);
    OneItem(ToRows(lines), at, indent, done, n, at + 1);
  }

  lemma BelowStep(lines: seq<Line>, at: nat, indent: nat, done: seq<Node>, n: Node, next: nat)
    requires AllWritten(lines) && BelowAt(lines, at, indent)
    requires BlockOf(MapParser(lines), ListParser(lines), lines, at + 1, lines[at + 1].indent) == Ok((n, next))
    ensures ParseList(lines, at, indent, done) == ParseList(lines, next, indent, done + [n])
  {
    RowAt(lines, at);
    RowAt(lines, at + 1);
    BlockIs(lines, at + 1);
    BelowItem(ToRows(lines), at, indent);
    OneItem(ToRows(lines), at, indent, done, n, next);
  }

  lemma BlankItemStep(lines: seq<Line>, at: nat, indent: nat, done: seq<Node>)
    requires BlankItemAt(lines, at, indent)
    ensures ParseList(lines, at, indent, done) == ParseList(lines, at + 1, indent, done + [Null])
  {
    RowAt(lines, at);
    Depth(lines, at + 1, indent);
    BlankItem(ToRows(lines), at, indent);
    OneItem(ToRows(lines), at, indent, done, Null, at + 1);
  }

  lemma InlineStep(lines: seq<Line>, at: nat, indent: nat, done: seq<Node>, e: Entry, rest: seq<Entry>, next: nat)
    requires AllWritten(lines) && InlineAt(lines, at, indent, e) && rest != [] && !HasKey(rest, e.key)
    requires ParseMap(lines, at + 1, lines[at + 1].indent, []) == Ok((Map(rest), next))
    ensures ParseList(lines, at, indent, done) == ParseList(lines, next, indent, done + [Map([e] + rest)])
  {
    var InlineLine(_, _, key, value) := lines[at];
    assert Written(lines[at]);
    EntryReads(key, value);
    RowAt(lines, at);
    RowAt(lines, at + 1);
    BlockIs(lines, at + 1);
    MappingItem(ToRows(lines), at, indent, EntryText(key, value));
    InlineItem(ToRows(lines), at, indent, EntryText(key, value), (key, value), e, rest, next);
    OneItem(ToRows(lines), at, indent, done, Map([e] + rest), next);
  }

  lemma LoneStep(lines: seq<Line>, at: nat, indent: nat, done: seq<Node>, e: Entry)
    requires AllWritten(lines) && LoneAt(lines, at, indent, e)
    ensures ParseList(lines, at, indent, done) == ParseList(lines, at + 1, indent, done + [Map([e])])
  {
    LoneRead(lines, at, indent, done, e, e);
  }

  lemma LoneRead(lines: seq<Line>, at: nat, indent: nat, done: seq<Node>, e: Entry, read: Entry)
    requires AllWritten(lines) && at < |lines| && lines[at].InlineLine? && lines[at].indent == indent
    requires lines[at].entry == e && EndsAt(lines, at + 1, indent + 1)
    requires read == if e.value == Null then Entry(e.key, Map([])) else e
    ensures ParseList(lines, at, indent, done) == ParseList(lines, at + 1, indent, done + [Map([read])])
  {
    LoneLine(lines, at, indent, e, read);
    RowAt(lines, at);
    OneItem(ToRows(lines), at, indent, done, Map([read]), at + 1);
  }

  lemma LoneLine(lines: seq<Line>, at: nat, indent: nat, e: Entry, read: Entry)
    requires at < |lines| && Written(lines[at]) && lines[at].InlineLine? && lines[at].entry == e
    requires EndsAt(lines, at + 1, indent + 1) && read == if e.value == Null then Entry(e.key, Map([])) else e
    ensures StartsItem(ToRows(lines)[at].text)
    ensures ParseItemAt(ToRows(lines), at, indent) == Ok((Map([read]), at + 1))
  {
    RowAt(lines, at);
    Depth(lines, at + 1, indent);
    LoneRow(ToRows(lines), at, indent, lines[at].key, lines[at].value, e, read);
  }

  lemma LoneRow(rows: seq<Row>, at: nat, indent: nat, key: string, value: string, e: Entry, read: Entry)
    requires KeyReads(key, e.key) && ScalarReads(value, e.value)
    requires at < |rows| && rows[at].text == "- " + EntryText(key, value) && !Deeper(rows, at + 1, indent)
    requires read == if e.value == Null then Entry(e.key, Map([])) else e
    ensures StartsItem(rows[at].text) && ParseItemAt(rows, at, indent) == Ok((Map([read]), at + 1))
  {
    EntryReads(key, value);
    MappingItem(rows, at, indent, EntryText(key, value));
    LoneItem(rows, at, indent, EntryText(key, value), (key, value), e, read);
  }

  lemma HeadingItemStep(lines: seq<Line>, at: nat, indent: nat, done: seq<Node>, e: Entry, next: nat)
    requires AllWritten(lines) && HeadingItemAt(lines, at, indent, e) && e.value.Map?
    requires ParseMap(lines, at + 1, lines[at + 1].indent, []) == Ok((e.value, next))
    ensures ParseList(lines, at, indent, done) == ParseList(lines, next, indent, done + [Map([e])])
  {
    var key := lines[at].key;
    assert Written(lines[at]);
    HeadingReads(key);
    RowAt(lines, at);
    RowAt(lines, at + 1);
    BlockIs(lines, at + 1);
    MappingItem(ToRows(lines), at, indent, key + ":");
    HeadingItem(ToRows(lines), at, indent, key + ":", key, e, next);
    OneItem(ToRows(lines), at, indent, done, Map([e]), next);
  }

  lemma BlankHeadingStep(lines: seq<Line>, at: nat, indent: nat, done: seq<Node>, e: Entry)
    requires AllWritten(lines) && BlankHeadingAt(lines, at, indent, e)
    ensures ParseList(lines, at, indent, done) == ParseList(lines, at + 1, indent, done + [Map([e])])
  {
    var key := lines[at].key;
    assert Written(lines[at]);
    HeadingReads(key);
    RowAt(lines, at);
    Depth(lines, at + 1, indent);
    MappingItem(ToRows(lines), at, indent, key + ":");
    BlankHeadingItem(ToRows(lines), at, indent, key + ":", key, e);
    OneItem(ToRows(lines), at, indent, done, Map([e]), at + 1);
  }

  /** A one-key mapping with null, written behind the dash, is read with an empty mapping: the
      shape that the printer never uses for it. */
  lemma OneKeyNullBecomesEmpty(lines: seq<Line>, at: nat, indent: nat, done: seq<Node>, key: string)
    requires AllWritten(lines) && at < |lines| && lines[at].InlineLine? && lines[at].indent == indent
    requires lines[at].entry == Entry(key, Null) && EndsAt(lines, at + 1, indent + 1)
    ensures ParseList(lines, at, indent, done) ==
            ParseList(lines, at + 1, indent, done + [Map([Entry(key, Map([]))])])
  {
    LoneRead(lines, at, indent, done, Entry(key, Null), Entry(key, Map([])));
  }

  // ---- Reading a printed block

  /** Functions that read printed lines the way the parser does, one rule per kind of line. */
  ghost predicate ReadsMap(f: MapReader, g: ListReader, lines: seq<Line>) {
    && (forall at: nat, indent: nat, done: seq<Entry> {:trigger EndsAt(lines, at, indent), f(at, indent, done)} ::
          EndsAt(lines, at, indent) ==> f(at, indent, done) == Ok((Map(done), at)))
    && (forall at: nat, indent: nat, done: seq<Entry>,
        e: Entry {:trigger LeafAt(lines, at, indent, e), f(at, indent, done)} ::
          LeafAt(lines, at, indent, e) && !HasKey(done, e.key) ==> f(at, indent, done) == f(at + 1, indent, done + [e]))
    && (forall at: nat, indent: nat, done: seq<Entry>, e: Entry, next: nat
          {:trigger HeadingAt(lines, at, indent, e), f(at, indent, done), f(next, indent, done + [e])} ::
          HeadingAt(lines, at, indent, e) && !HasKey(done, e.key) &&
            BlockOf(f, g, lines, at + 1, lines[at + 1].indent) == Ok((e.value, next))
          ==> f(at, indent, done) == f(next, indent, done + [e]))
  }

  ghost predicate ReadsList(f: MapReader, g: ListReader, lines: seq<Line>) {
    && (forall at: nat, indent: nat, done: seq<Node> {:trigger EndsAt(lines, at, indent), g(at, indent, done)} ::
          EndsAt(lines, at, indent) ==> g(at, indent, done) == Ok((List(done), at)))
    && (forall at: nat, indent: nat, done: seq<Node>,
        n: Node {:trigger ItemAt(lines, at, indent, n), g(at, indent, done)} ::
          ItemAt(lines, at, indent, n) ==> g(at, indent, done) == g(at + 1, indent, done + [n]))
    && (forall at: nat, indent: nat, done: seq<Node>, n: Node, next: nat
          {:trigger BelowAt(lines, at, indent), g(at, indent, done), g(next, indent, done + [n])} ::
          BelowAt(lines, at, indent) && BlockOf(f, g, lines, at + 1, lines[at + 1].indent) == Ok((n, next)) ==>
          g(at, indent, done) == g(next, indent, done + [n]))
  }

  ghost predicate ReadsMappings(f: MapReader, g: ListReader, lines: seq<Line>) {
    && (forall at: nat, indent: nat, done: seq<Node>, e: Entry, rest: seq<Entry>, next: nat
          {:trigger InlineAt(lines, at, indent, e), g(at, indent, done), g(next, indent, done + [Map([e] + rest)])} ::
          InlineAt(lines, at, indent, e) && rest != [] && !HasKey(rest, e.key) &&
            f(at + 1, lines[at + 1].indent, []) == Ok((Map(rest), next))
          ==> g(at, indent, done) == g(next, indent, done + [Map([e] + rest)]))
    && (forall at: nat, indent: nat, done: seq<Node>,
        e: Entry {:trigger LoneAt(lines, at, indent, e), g(at, indent, done)} ::
          LoneAt(lines, at, indent, e) ==> g(at, indent, done) == g(at + 1, indent, done + [Map([e])]))
    && (forall at: nat, indent: nat, done: seq<Node>, e: Entry, next: nat
          {:trigger HeadingItemAt(lines, at, indent, e), g(at, indent, done), g(next, indent, done + [Map([e])])} ::
          HeadingItemAt(lines, at, indent, e) && e.value.Map? &&
            f(at + 1, lines[at + 1].indent, []) == Ok((e.value, next))
          ==> g(at, indent, done) == g(next, indent, done + [Map([e])]))
  }

  ghost predicate ReadsBlanks(f: MapReader, g: ListReader, lines: seq<Line>) {
    && (forall at: nat, indent: nat, done: seq<Entry>, e: Entry
          {:trigger BlankAt(lines, at, indent, e), f(at, indent, done)} ::
          BlankAt(lines, at, indent, e) && !HasKey(done, e.key) ==>
            f(at, indent, done) == f(at + 1, indent, done + [e]))
    && (forall at: nat, indent: nat, done: seq<Node> {:trigger BlankItemAt(lines, at, indent), g(at, indent, done)} ::
          BlankItemAt(lines, at, indent) ==> g(at, indent, done) == g(at + 1, indent, done + [Null]))
    && (forall at: nat, indent: nat, done: seq<Node>, e: Entry
          {:trigger BlankHeadingAt(lines, at, indent, e), g(at, indent, done)} ::
          BlankHeadingAt(lines, at, indent, e) ==> g(at, indent, done) == g(at + 1, indent, done + [Map([e])]))
  }

  ghost predicate Reads(f: MapReader, g: ListReader, lines: seq<Line>) {
    ReadsMap(f, g, lines) && ReadsList(f, g, lines) && ReadsMappings(f, g, lines) && ReadsBlanks(f, g, lines)
  }

  lemma ParserReadsMap(lines: seq<Line>)
    requires AllWritten(lines)
    ensures ReadsMap(MapParser(lines), ListParser(lines), lines)
  {
    forall at: nat, indent: nat, done: seq<Entry>, e: Entry | LeafAt(lines, at, indent, e) && !HasKey(done, e.key)
      ensures ParseMap(lines, at, indent, done) == ParseMap(lines, at + 1, indent, done + [e])
    {
      LeafStep(lines, at, indent, done, e);
    }
    forall at: nat, indent: nat, done: seq<Entry>, e: Entry, next: nat |
      HeadingAt(lines, at, indent, e) && !HasKey(done, e.key) &&
      BlockOf(MapParser(lines), ListParser(lines), lines, at + 1, lines[at + 1].indent) == Ok((e.value, next))
      ensures ParseMap(lines, at, indent, done) == ParseMap(lines, next, indent, done + [e])
    {
      HeadingStep(lines, at, indent, done, e, next);
    }
  }

  lemma ParserReadsList(lines: seq<Line>)
    requires AllWritten(lines)
    ensures ReadsList(MapParser(lines), ListParser(lines), lines)
  {
    forall at: nat, indent: nat, done: seq<Node>, n: Node | ItemAt(lines, at, indent, n)
      ensures ParseList(lines, at, indent, done) == ParseList(lines, at + 1, indent, done + [n])
    {
      ItemStep(lines, at, indent, done, n);
    }
    forall at: nat, indent: nat, done: seq<Node>, n: Node, next: nat |
      BelowAt(lines, at, indent) &&
        BlockOf(MapParser(lines), ListParser(lines), lines, at + 1, lines[at + 1].indent) == Ok((n, next))
      ensures ParseList(lines, at, indent, done) == ParseList(lines, next, indent, done + [n])
    {
      BelowStep(lines, at, indent, done, n, next);
    }
  }

  lemma ParserReadsMappings(lines: seq<Line>)
    requires AllWritten(lines)
    ensures ReadsMappings(MapParser(lines), ListParser(lines), lines)
  {
    forall at: nat, indent: nat, done: seq<Node>, e: Entry, rest: seq<Entry>, next: nat |
      InlineAt(lines, at, indent, e) && rest != [] && !HasKey(rest, e.key) &&
      ParseMap(lines, at + 1, lines[at + 1].indent, []) == Ok((Map(rest), next))
      ensures ParseList(lines, at, indent, done) == ParseList(lines, next, indent, done + [Map([e] + rest)])
    {
      InlineStep(lines, at, indent, done, e, rest, next);
    }
    forall at: nat, indent: nat, done: seq<Node>, e: Entry | LoneAt(lines, at, indent, e)
      ensures ParseList(lines, at, indent, done) == ParseList(lines, at + 1, indent, done + [Map([e])])
    {
      LoneStep(lines, at, indent, done, e);
    }
    forall at: nat, indent: nat, done: seq<Node>, e: Entry, next: nat |
      HeadingItemAt(lines, at, indent, e) && e.value.Map? &&
        ParseMap(lines, at + 1, lines[at + 1].indent, []) == Ok((e.value, next))
      ensures ParseList(lines, at, indent, done) == ParseList(lines, next, indent, done + [Map([e])])
    {
      HeadingItemStep(lines, at, indent, done, e, next);
    }
  }

  lemma ParserReadsBlanks(lines: seq<Line>)
    requires AllWritten(lines)
    ensures ReadsBlanks(MapParser(lines), ListParser(lines), lines)
  {
    forall at: nat, indent: nat, done: seq<Entry>, e: Entry | BlankAt(lines, at, indent, e) && !HasKey(done, e.key)
      ensures ParseMap(lines, at, indent, done) == ParseMap(lines, at + 1, indent, done + [e])
    {
      BlankStep(lines, at, indent, done, e);
    }
    forall at: nat, indent: nat, done: seq<Node> | BlankItemAt(lines, at, indent)
      ensures ParseList(lines, at, indent, done) == ParseList(lines, at + 1, indent, done + [Null])
    {
      BlankItemStep(lines, at, indent, done);
    }
    forall at: nat, indent: nat, done: seq<Node>, e: Entry | BlankHeadingAt(lines, at, indent, e)
      ensures ParseList(lines, at, indent, done) == ParseList(lines, at + 1, indent, done + [Map([e])])
    {
      BlankHeadingStep(lines, at, indent, done, e);
    }
  }

  /** `lines` continues at `at` with exactly `printed`, and then leaves the block. */
  ghost predicate BlockAt(lines: seq<Line>, at: nat, printed: seq<Line>, indent: nat) {
    && at + |printed| <= |lines|
    && lines[at..at + |printed|] == printed
    && EndsAt(lines, at + |printed|, indent)
  }

  lemma RestOfBlock(lines: seq<Line>, at: nat, first: seq<Line>, rest: seq<Line>, indent: nat)
    requires BlockAt(lines, at, first + rest, indent)
    ensures lines[at..at + |first|] == first
    ensures first != [] ==> lines[at] == first[0]
    ensures BlockAt(lines, at + |first|, rest, indent)
  {
    var all := first + rest;
    assert first != [] ==> lines[at..at + |all|][0] == all[0];
    assert lines[at..at + |first|] == all[..|first|];
    assert lines[at + |first|..at + |first| + |rest|] == all[|first|..];
  }

  lemma FirstLineOf(n: Node, k: nat, indent: nat, style: Style)
    requires IsBlock(n) && k < Arity(n)
    ensures var lines := PrintFrom(n, k, indent, style);
            lines != [] && lines[0].indent == indent && (IsItem(lines[0]) <==> n.List?)
  {
  }

  /** What follows a child: its next sibling, or the end of the block. */
  lemma AfterChild(lines: seq<Line>, at: nat, n: Node, k: nat, indent: nat, style: Style)
    requires IsBlock(n) && k <= Arity(n) && BlockAt(lines, at, PrintFrom(n, k, indent, style), indent)
    ensures EndsAt(lines, at, indent + 1)
  {
    var rest := PrintFrom(n, k, indent, style);
    if k < Arity(n) {
      FirstLineOf(n, k, indent, style);
      assert lines[at] == rest[0] by { assert lines[at..at + |rest|][0] == rest[0]; }
    }
  }

  lemma NextChild(lines: seq<Line>, at: nat, n: Node, k: nat, indent: nat, style: Style, end: nat) returns (next: nat)
    requires IsBlock(n) && k < Arity(n)
    requires BlockAt(lines, at, PrintFrom(n, k, indent, style), indent) && end == at + |PrintFrom(n, k, indent, style)|
    ensures next == at + |PrintChild(n, k, indent, style)| && EndsAt(lines, next, indent + 1)
    ensures BlockAt(lines, at, PrintChild(n, k, indent, style) + PrintFrom(n, k + 1, indent, style), indent)
    ensures BlockAt(lines, next, PrintFrom(n, k + 1, indent, style), indent) &&
            end == next + |PrintFrom(n, k + 1, indent, style)|
  {
    var first, rest := PrintChild(n, k, indent, style), PrintFrom(n, k + 1, indent, style);
    PrintFromIs(n, k, indent, style);
    next := at + |first|;
    ChildAndRest(lines, at, first, rest, indent, end);
    AfterChild(lines, next, n, k + 1, indent, style);
  }

  lemma PrintFromIs(n: Node, k: nat, indent: nat, style: Style)
    requires IsBlock(n) && k < Arity(n)
    ensures PrintFrom(n, k, indent, style) == PrintChild(n, k, indent, style) + PrintFrom(n, k + 1, indent, style)
  {
  }

  lemma ChildAndRest(lines: seq<Line>, at: nat, first: seq<Line>, rest: seq<Line>, indent: nat, end: nat)
    requires BlockAt(lines, at, first + rest, indent) && end == at + |first + rest|
    ensures BlockAt(lines, at + |first|, rest, indent) && end == at + |first| + |rest|
  {
    RestOfBlock(lines, at, first, rest, indent);
  }

  /** The block `printed` lies below the line at `at`, indented by `deeper`. */
  ghost predicate LiesBelow(lines: seq<Line>, at: nat, printed: seq<Line>, deeper: nat, next: nat) {
    && BlockAt(lines, at + 1, printed, deeper) && next == at + 1 + |printed|
    && (printed != [] ==> at + 1 < |lines| && lines[at + 1] == printed[0])
  }

  /** A child's head line and its block below. */
  lemma ChildParts(lines: seq<Line>, at: nat, head: Line, printed: seq<Line>, rest: seq<Line>, indent: nat, deeper: nat)
    requires BlockAt(lines, at, ([head] + printed) + rest, indent) && EndsAt(lines, at + 1 + |printed|, indent + 1)
    requires deeper > indent
    ensures at < |lines| && lines[at] == head && LiesBelow(lines, at, printed, deeper, at + 1 + |printed|)
  {
    assert ([head] + printed) + rest == [head] + (printed + rest);
    RestOfBlock(lines, at, [head], printed + rest, indent);
    RestOfBlock(lines, at + 1, printed, rest, indent);
    if printed != [] { assert lines[at + 1..at + 1 + |printed|][0] == printed[0]; }
  }

  /** Reading a printed block from its `k`-th child on, after the children from `j` to `k`, gives
      the children from `j` on and stops right behind the block. */
  lemma {:induction false} ReadFrom(f: MapReader, g: ListReader, lines: seq<Line>, at: nat, n: Node, j: nat, k: nat,
                                    indent: nat, style: Style, end: nat)
    requires Reads(f, g, lines) && Proper(n) && IsBlock(n) && j <= k <= Arity(n)
    requires BlockAt(lines, at, PrintFrom(n, k, indent, style), indent) && end == at + |PrintFrom(n, k, indent, style)|
    ensures n.Map? ==> f(at, indent, n.entries[j..k]) == Ok((Map(n.entries[j..]), end))
    ensures n.List? ==> g(at, indent, n.items[j..k]) == Ok((List(n.items[j..]), end))
    decreases n, Arity(n) - k, 3
  {
    if k == Arity(n) {
      ReadEnd(f, g, lines, at, n, j, indent);
    } else {
      var next := ReadNext(f, g, lines, at, n, j, k, indent, style, end);
      ReadFrom(f, g, lines, next, n, j, k + 1, indent, style, end);
    }
  }

  lemma {:induction false} ReadNext(f: MapReader, g: ListReader, lines: seq<Line>, at: nat, n: Node, j: nat, k: nat,
                                    indent: nat, style: Style, end: nat) returns (next: nat)
    requires Reads(f, g, lines) && Proper(n) && IsBlock(n) && j <= k < Arity(n)
    requires BlockAt(lines, at, PrintFrom(n, k, indent, style), indent) && end == at + |PrintFrom(n, k, indent, style)|
    ensures BlockAt(lines, next, PrintFrom(n, k + 1, indent, style), indent)
    ensures end == next + |PrintFrom(n, k + 1, indent, style)|
    ensures n.Map? ==> f(at, indent, n.entries[j..k]) == f(next, indent, n.entries[j..k + 1])
    ensures n.List? ==> g(at, indent, n.items[j..k]) == g(next, indent, n.items[j..k + 1])
    decreases n, Arity(n) - k, 2
  {
    next := NextChild(lines, at, n, k, indent, style, end);
    ReadChild(f, g, lines, at, n, j, k, indent, style, next);
  }

  lemma ReadEnd(f: MapReader, g: ListReader, lines: seq<Line>, at: nat, n: Node, j: nat, indent: nat)
    requires Reads(f, g, lines) && IsBlock(n) && j <= Arity(n) && EndsAt(lines, at, indent)
    ensures n.Map? ==> f(at, indent, n.entries[j..|n.entries|]) == Ok((Map(n.entries[j..]), at))
    ensures n.List? ==> g(at, indent, n.items[j..|n.items|]) == Ok((List(n.items[j..]), at))
  {
    if n.Map? {
      assert n.entries[j..|n.entries|] == n.entries[j..];
    } else {
      assert n.items[j..|n.items|] == n.items[j..];
    }
  }

  lemma {:induction false} ReadChild(f: MapReader, g: ListReader, lines: seq<Line>, at: nat, n: Node, j: nat, k: nat,
                                     indent: nat, style: Style, next: nat)
    requires Reads(f, g, lines) && Proper(n) && IsBlock(n) && j <= k < Arity(n)
    requires BlockAt(lines, at, PrintChild(n, k, indent, style) + PrintFrom(n, k + 1, indent, style), indent)
    requires next == at + |PrintChild(n, k, indent, style)| && EndsAt(lines, next, indent + 1)
    ensures n.Map? ==> f(at, indent, n.entries[j..k]) == f(next, indent, n.entries[j..k + 1])
    ensures n.List? ==> g(at, indent, n.items[j..k]) == g(next, indent, n.items[j..k + 1])
    decreases n, Arity(n) - k, 1
  {
    if n.Map? {
      KeyIsNew(n.entries, j, k);
      ReadEntry(f, g, lines, at, n, k, indent, style, n.entries[j..k], next);
      SliceNext(n.entries, j, k);
    } else {
      ReadItem(f, g, lines, at, n, k, indent, style, n.items[j..k], next);
      SliceNext(n.items, j, k);
    }
  }

  lemma SliceNext<T>(s: seq<T>, j: nat, k: nat)
    requires j <= k < |s|
    ensures s[j..k] + [s[k]] == s[j..k + 1]
  {
  }

  /** A whole block below its head line. */
  lemma {:induction false} ReadBelow(f: MapReader, g: ListReader, lines: seq<Line>, at: nat, n: Node, indent: nat,
                                     style: Style, end: nat)
    requires Reads(f, g, lines) && Proper(n) && IsBlock(n) && Arity(n) > 0
    requires BlockAt(lines, at, PrintFrom(n, 0, indent, style), indent) && end == at + |PrintFrom(n, 0, indent, style)|
    requires at < |lines| && PrintFrom(n, 0, indent, style) != [] && lines[at] == PrintFrom(n, 0, indent, style)[0]
    ensures BlockOf(f, g, lines, at, indent) == Ok((n, end))
    ensures n.Map? ==> f(at, indent, []) == Ok((n, end))
    decreases n, Arity(n), 4
  {
    ReadFrom(f, g, lines, at, n, 0, 0, indent, style, end);
    FirstLineOf(n, 0, indent, style);
    if n.Map? {
      assert n.entries[0..0] == [] && n.entries[0..] == n.entries && Map(n.entries) == n;
    } else {
      assert n.items[0..0] == [] && n.items[0..] == n.items && List(n.items) == n;
    }
  }

  lemma {:induction false} ReadEntry(f: MapReader, g: ListReader, lines: seq<Line>, at: nat, n: Node, k: nat,
                                     indent: nat, style: Style, done: seq<Entry>, next: nat)
    requires Reads(f, g, lines) && Proper(n) && n.Map? && k < Arity(n) && !HasKey(done, n.entries[k].key)
    requires BlockAt(lines, at, PrintChild(n, k, indent, style) + PrintFrom(n, k + 1, indent, style), indent)
    requires next == at + |PrintChild(n, k, indent, style)| && EndsAt(lines, next, indent + 1)
    ensures f(at, indent, done) == f(next, indent, done + [n.entries[k]])
    decreases n, Arity(n) - k, 0
  {
    var e, rest := n.entries[k], PrintFrom(n, k + 1, indent, style);
    SingleLine(lines, at, e, rest, indent, style, next);
    if e.value == Map([]) && style.blankMap(e.key) {
      ByBlank(f, g, lines, at, indent, done, e, next);
    } else if IsLeaf(e.value) {
      ByLeaf(f, g, lines, at, indent, done, e, next);
    } else {
      ReadHeaded(f, g, lines, at, e, rest, indent, style, done, next);
    }
  }

  /** An entry on one line. */
  lemma SingleLine(lines: seq<Line>, at: nat, e: Entry, rest: seq<Line>, indent: nat, style: Style, next: nat)
    requires BlockAt(lines, at, PrintEntry(e, indent, style) + rest, indent)
    requires next == at + |PrintEntry(e, indent, style)| && EndsAt(lines, next, indent + 1)
    ensures e.value == Map([]) && style.blankMap(e.key) ==> BlankAt(lines, at, indent, e) && next == at + 1
    ensures IsLeaf(e.value) && !(e.value == Map([]) && style.blankMap(e.key)) ==>
              LeafAt(lines, at, indent, e) && next == at + 1
  {
    RestOfBlock(lines, at, PrintEntry(e, indent, style), rest, indent);
  }

  lemma ByLeaf(f: MapReader, g: ListReader, lines: seq<Line>, at: nat, indent: nat, done: seq<Entry>, e: Entry,
               next: nat)
    requires Reads(f, g, lines) && LeafAt(lines, at, indent, e) && !HasKey(done, e.key) && next == at + 1
    ensures f(at, indent, done) == f(next, indent, done + [e])
  {
  }

  lemma ByBlank(f: MapReader, g: ListReader, lines: seq<Line>, at: nat, indent: nat, done: seq<Entry>, e: Entry,
                next: nat)
    requires Reads(f, g, lines) && BlankAt(lines, at, indent, e) && !HasKey(done, e.key) && next == at + 1
    ensures f(at, indent, done) == f(next, indent, done + [e])
  {
  }

  /** An entry whose value is a block below it. */
  lemma {:induction false} ReadHeaded(f: MapReader, g: ListReader, lines: seq<Line>, at: nat, e: Entry, rest: seq<Line>,
                                      indent: nat, style: Style, done: seq<Entry>, next: nat)
    requires Reads(f, g, lines) && !IsLeaf(e.value) && Proper(e.value) && !HasKey(done, e.key)
    requires var printed := PrintFrom(e.value, 0, indent + Step(e.value, style), style);
             && BlockAt(lines, at, ([HeadingLine(indent, e, KeyText(e, style))] + printed) + rest, indent)
             && next == at + 1 + |printed| && EndsAt(lines, next, indent + 1)
    ensures f(at, indent, done) == f(next, indent, done + [e])
    decreases e.value, Arity(e.value), 5
  {
    var deeper := indent + Step(e.value, style);
    var printed := PrintFrom(e.value, 0, deeper, style);
    ChildParts(lines, at, HeadingLine(indent, e, KeyText(e, style)), printed, rest, indent, deeper);
    FirstLineOf(e.value, 0, deeper, style);
    ReadBelow(f, g, lines, at + 1, e.value, deeper, style, next);
    assert HeadingAt(lines, at, indent, e);
  }

  lemma KeyIsNew(es: seq<Entry>, j: nat, k: nat)
    requires DistinctKeys(es) && j <= k < |es|
    ensures !HasKey(es[j..k], es[k].key)
  {
  }

  lemma {:induction false} ReadItem(f: MapReader, g: ListReader, lines: seq<Line>, at: nat, n: Node, k: nat,
                                    indent: nat, style: Style, done: seq<Node>, next: nat)
    requires Reads(f, g, lines) && Proper(n) && n.List? && k < Arity(n)
    requires BlockAt(lines, at, PrintChild(n, k, indent, style) + PrintFrom(n, k + 1, indent, style), indent)
    requires next == at + |PrintChild(n, k, indent, style)| && EndsAt(lines, next, indent + 1)
    ensures g(at, indent, done) == g(next, indent, done + [n.items[k]])
    decreases n, Arity(n) - k, 0
  {
    var x, rest := n.items[k], PrintFrom(n, k + 1, indent, style);
    RestOfBlock(lines, at, PrintChild(n, k, indent, style), rest, indent);
    if x == Null && style.blankItem {
      assert BlankItemAt(lines, at, indent);
    } else if IsLeaf(x) {
      assert ItemAt(lines, at, indent, x);
      ByItem(f, g, lines, at, indent, done, x, next);
    } else {
      ReadNested(f, g, lines, at, x, rest, indent, style, done, next);
    }
  }

  lemma ByItem(f: MapReader, g: ListReader, lines: seq<Line>, at: nat, indent: nat, done: seq<Node>, x: Node, next: nat)
    requires Reads(f, g, lines) && ItemAt(lines, at, indent, x) && next == at + 1
    ensures g(at, indent, done) == g(next, indent, done + [x])
  {
  }

  /** An item that is no leaf, in whichever shape it was written. */
  lemma {:induction false} ReadNested(f: MapReader, g: ListReader, lines: seq<Line>, at: nat, x: Node, rest: seq<Line>,
                                      indent: nat, style: Style, done: seq<Node>, next: nat)
    requires Reads(f, g, lines) && Proper(x) && !IsLeaf(x)
    requires BlockAt(lines, at, PrintNested(x, indent, style) + rest, indent)
    requires next == at + |PrintNested(x, indent, style)| && EndsAt(lines, next, indent + 1)
    ensures g(at, indent, done) == g(next, indent, done + [x])
    decreases x, Arity(x), 6
  {
    NestedParts(lines, at, x, rest, indent, style, next);
    if ShapeOf(x, style).Below? {
      ReadUnderDash(f, g, lines, at, x, indent, indent + Step(x, style), style, done, next);
    } else if ShapeOf(x, style).Inline? {
      ReadInline(f, g, lines, at, x, indent, indent + Step(x, style), style, done, next);
    } else {
      ReadHeading(f, g, lines, at, x, indent, indent + Step(x, style), style, done, next);
    }
  }

  /** The head line of a nested item, and the block below it. */
  lemma NestedParts(lines: seq<Line>, at: nat, x: Node, rest: seq<Line>, indent: nat, style: Style, next: nat)
    requires !IsLeaf(x) && BlockAt(lines, at, PrintNested(x, indent, style) + rest, indent)
    requires next == at + |PrintNested(x, indent, style)| && EndsAt(lines, next, indent + 1)
    ensures at < |lines| && lines[at] == HeadOf(x, indent, style)
    ensures LiesBelow(lines, at, BodyOf(x, indent, style), indent + Step(x, style), next)
  {
    ChildParts(lines, at, HeadOf(x, indent, style), BodyOf(x, indent, style), rest, indent, indent + Step(x, style));
  }

  /** A block under a dash alone. */
  lemma {:induction false} ReadUnderDash(f: MapReader, g: ListReader, lines: seq<Line>, at: nat, x: Node, indent: nat,
                                         deeper: nat, style: Style, done: seq<Node>, next: nat)
    requires Reads(f, g, lines) && Proper(x) && !IsLeaf(x) && at < |lines| && lines[at] == BelowLine(indent)
    requires deeper > indent && LiesBelow(lines, at, PrintFrom(x, 0, deeper, style), deeper, next)
    ensures g(at, indent, done) == g(next, indent, done + [x])
    decreases x, Arity(x), 5
  {
    FirstLineOf(x, 0, deeper, style);
    ReadBelow(f, g, lines, at + 1, x, deeper, style, next);
    assert BelowAt(lines, at, indent);
  }

  /** A mapping with its only key behind the dash. */
  lemma {:induction false} ReadHeading(f: MapReader, g: ListReader, lines: seq<Line>, at: nat, x: Node, indent: nat,
                                       deeper: nat, style: Style, done: seq<Node>, next: nat)
    requires Reads(f, g, lines) && Proper(x) && FitsHeading(x) && deeper > indent
    requires at < |lines| && lines[at].HeadingItemLine? && lines[at].indent == indent && lines[at].entry == x.entries[0]
    requires LiesBelow(lines, at, PrintFrom(x.entries[0].value, 0, deeper, style), deeper, next)
    requires EndsAt(lines, next, indent + 1)
    ensures g(at, indent, done) == g(next, indent, done + [x])
    decreases x, Arity(x), 5
  {
    var e := x.entries[0];
    assert x == Map([e]) by { assert x.entries == [e]; }
    if e.value.entries == [] {
      assert BlankHeadingAt(lines, at, indent, e);
    } else {
      FirstLineOf(e.value, 0, deeper, style);
      ReadBelow(f, g, lines, at + 1, e.value, deeper, style, next);
      assert HeadingItemAt(lines, at, indent, e);
    }
  }

  /** A mapping with its first entry behind the dash. */
  lemma {:induction false} ReadInline(f: MapReader, g: ListReader, lines: seq<Line>, at: nat, x: Node, indent: nat,
                                      deeper: nat, style: Style, done: seq<Node>, next: nat)
    requires Reads(f, g, lines) && Proper(x) && FitsInline(x) && deeper > indent
    requires at < |lines| && lines[at].InlineLine? && lines[at].indent == indent && lines[at].entry == x.entries[0]
    requires LiesBelow(lines, at, PrintFrom(x, 1, deeper, style), deeper, next) && EndsAt(lines, next, indent + 1)
    ensures g(at, indent, done) == g(next, indent, done + [x])
    decreases x, Arity(x), 5
  {
    var e, others := x.entries[0], x.entries[1..];
    assert x.entries == [e] + others;
    if |x.entries| == 1 {
      assert LoneAt(lines, at, indent, e);
      assert x == Map([e]);
      assert next == at + 1;
    } else {
      ReadFrom(f, g, lines, at + 1, x, 1, 1, deeper, style, next);
      assert x.entries[1..1] == [];
      FirstLineOf(x, 1, deeper, style);
      assert InlineAt(lines, at, indent, e);
      assert !HasKey(others, e.key);
      assert x == Map([e] + others);
    }
  }

  // ---- What is printed is well written

  lemma WrittenJoined(a: seq<Line>, b: seq<Line>)
    requires AllWritten(a) && AllWritten(b)
    ensures AllWritten(a + b)
  {
  }

  lemma {:induction false} PrintedIsWritten(n: Node, k: nat, indent: nat, style: Style)
    requires IsBlock(n) && k <= Arity(n) && indent % 2 == 0
    ensures AllWritten(PrintFrom(n, k, indent, style))
    decreases n, Arity(n) - k, 1
  {
    if k < Arity(n) {
      PrintedIsWritten(n, k + 1, indent, style);
      ChildIsWritten(n, k, indent, style);
      WrittenJoined(PrintChild(n, k, indent, style), PrintFrom(n, k + 1, indent, style));
    }
  }

  lemma {:induction false} ChildIsWritten(n: Node, k: nat, indent: nat, style: Style)
    requires IsBlock(n) && k < Arity(n) && indent % 2 == 0
    ensures AllWritten(PrintChild(n, k, indent, style))
    decreases n, Arity(n) - k, 0
  {
    if n.Map? {
      EntryIsWritten(n.entries[k], indent, style);
    } else if IsLeaf(n.items[k]) {
      WrittenItem(n.items[k], style.text);
    } else {
      NestedIsWritten(n.items[k], indent, style);
    }
  }

  lemma {:induction false} EntryIsWritten(e: Entry, indent: nat, style: Style)
    requires indent % 2 == 0
    ensures AllWritten(PrintEntry(e, indent, style))
    decreases e, 0, 3
  {
    WrittenKey(e.key, style.key(e.key));
    if IsLeaf(e.value) {
      LeafIsWritten(e, indent, style);
    } else {
      var head, deeper := HeadingLine(indent, e, KeyText(e, style)), indent + Step(e.value, style);
      PrintedIsWritten(e.value, 0, deeper, style);
      WrittenJoined([head], PrintFrom(e.value, 0, deeper, style));
    }
  }

  lemma LeafIsWritten(e: Entry, indent: nat, style: Style)
    requires IsLeaf(e.value) && indent % 2 == 0
    ensures AllWritten(PrintEntry(e, indent, style))
  {
    WrittenKey(e.key, style.key(e.key));
    WrittenLeaf(e.value, style.text);
  }

  lemma {:induction false} NestedIsWritten(x: Node, indent: nat, style: Style)
    requires !IsLeaf(x) && indent % 2 == 0
    ensures AllWritten(PrintNested(x, indent, style))
    decreases x, Arity(x), 2
  {
    var deeper := indent + Step(x, style);
    HeadIsWritten(x, indent, style);
    match ShapeOf(x, style) {
      case Below => PrintedIsWritten(x, 0, deeper, style);
      case Inline => PrintedIsWritten(x, 1, deeper, style);
      case Heading => PrintedIsWritten(x.entries[0].value, 0, deeper, style);
    }
    WrittenJoined([HeadOf(x, indent, style)], BodyOf(x, indent, style));
  }

  lemma HeadIsWritten(x: Node, indent: nat, style: Style)
    requires !IsLeaf(x)
    ensures Written(HeadOf(x, indent, style))
  {
    if !ShapeOf(x, style).Below? {
      var e := x.entries[0];
      WrittenKey(e.key, style.key(e.key));
      if IsLeaf(e.value) { WrittenLeaf(e.value, style.text); }
    }
  }

  // ---- The rows of a document

  lemma WholeBlock(lines: seq<Line>)
    ensures BlockAt(lines, 0, lines, 0)
  {
    assert lines[0..|lines|] == lines;
  }

  lemma BlockRoundTrip(n: Node, style: Style)
    requires Proper(n) && IsBlock(n) && Arity(n) > 0
    ensures var lines := PrintFrom(n, 0, 0, style); ParseBlock(ToRows(lines), 0, 0) == Ok((n, |lines|))
  {
    var lines := PrintFrom(n, 0, 0, style);
    PrintedIsWritten(n, 0, 0, style);
    ParserReadsMap(lines);
    ParserReadsList(lines);
    ParserReadsMappings(lines);
    ParserReadsBlanks(lines);
    FirstLineOf(n, 0, 0, style);
    WholeBlock(lines);
    ReadBelow(MapParser(lines), ListParser(lines), lines, 0, n, 0, style, |lines|);
    BlockIs(lines, 0);
  }

  /** Every document, a non-empty mapping with any lists, mappings and leaves in it, is read back
      from its rows, in whatever style they are written. */
  lemma RowsRoundTrip(n: Node, style: Style)
    requires Proper(n) && n.Map? && n.entries != []
    ensures ParseRows(ToRows(PrintFrom(n, 0, 0, style))) == Ok(n)
  {
    BlockRoundTrip(n, style);
    FirstLineOf(n, 0, 0, style);
    RowAt(PrintFrom(n, 0, 0, style), 0);
  }
}
