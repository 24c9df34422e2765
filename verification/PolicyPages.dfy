/**
 Whole policy documents as text: lines, their ends, blank lines and comments around the rows of
 a printed document, the round trip over all of them, and what an accepted document is like.
 */
module PolicyPages {
  import opened Wrappers
  import opened PolicyDocument
  import opened PolicyText
  import opened PolicyRoundTrip

  // ---- Lines and their ends

  predicate Unbroken(s: string) {
    forall i :: 0 <= i < |s| ==> !IsLineBreak(s[i])
  }

  /** A line end: one line-break character, or CR LF. */
  predicate IsEnd(s: string) {
    s == "\r\n" || (|s| == 1 && IsLineBreak(s[0]))
  }

  /** One line and what ends it. */
  datatype Ended = Ended(line: string, end: string)

  function PageText(page: seq<Ended>): (s: string) {
    if page == [] then [] else page[0].line + page[0].end + PageText(page[1..])
  }

  function LinesOf(page: seq<Ended>): (lines: seq<string>) {
    seq(|page|, i requires 0 <= i < |page| => page[i].line)
  }

  /** Each line is ended once: the last one perhaps by the end of the text, and a CR by no LF of
      an empty line behind it. */
  ghost predicate IsPage(page: seq<Ended>) {
    forall i :: 0 <= i < |page| ==>
      && Unbroken(page[i].line)
      && (IsEnd(page[i].end) || (i == |page| - 1 && page[i].end == [] && page[i].line != []))
      && (page[i].end == "\r" && i + 1 < |page| && page[i + 1].line == [] ==> !("\n" <= page[i + 1].end))
  }

  lemma {:induction false} LengthOfLine(line: string, rest: string)
    requires Unbroken(line) && (rest == [] || IsLineBreak(rest[0]))
    ensures LineLength(line + rest) == |line|
  {
    var s := line + rest;
    assert forall i :: 0 <= i < |line| ==> s[i] == line[i];
    if rest != [] { assert s[|line|] == rest[0]; }
  }

  /** A line, its end and the lines of the rest. */
  lemma SplitFirst(line: string, end: string, rest: string)
    requires Unbroken(line) && IsEnd(end) && (end == "\r" && rest != [] ==> rest[0] != '\n')
    ensures SplitLines(line + end + rest) == [line] + SplitLines(rest)
  {
    var s := line + end + rest;
    assert s == line + (end + rest);
    LengthOfLine(line, end + rest);
    assert s[..|line|] == line && s[|line|] == end[0] && s[|line| + |end|..] == rest;
    if end == "\r\n" {
      assert s[|line| + 1] == '\n';
    } else if rest != [] {
      assert s[|line| + 1] == rest[0];
    }
  }

  lemma SplitLast(line: string)
    requires Unbroken(line) && line != []
    ensures SplitLines(line) == [line]
  {
    assert line + [] == line;
    LengthOfLine(line, []);
  }

  lemma {:induction false} SplitPage(page: seq<Ended>)
    requires IsPage(page)
    ensures SplitLines(PageText(page)) == LinesOf(page)
  {
    if page != [] {
      var Ended(line, end) := page[0];
      var rest := PageText(page[1..]);
      assert IsPage(page[1..]) by { assert forall i :: 0 <= i < |page[1..]| ==> page[1..][i] == page[i + 1]; }
      SplitPage(page[1..]);
      assert LinesOf(page) == [line] + LinesOf(page[1..]);
      if end == [] {
        assert page[1..] == [] && line + end + rest == line;
        SplitLast(line);
      } else {
        if end == "\r" && rest != [] { RestStarts(page); }
        SplitFirst(line, end, rest);
      }
    }
  }

  lemma RestStarts(page: seq<Ended>)
    requires IsPage(page) && page != [] && page[0].end == "\r" && PageText(page[1..]) != []
    ensures PageText(page[1..])[0] != '\n'
  {
    assert |page| > 1 && page[1..][0] == page[1];
    var Ended(line, end) := page[1];
    var rest := PageText(page[1..][1..]);
    assert PageText(page[1..]) == line + end + rest;
    if line != [] {
      assert (line + end + rest)[0] == line[0];
    } else {
      assert (line + end + rest)[0] == end[0];
    }
  }

  // ---- Blank lines and comments

  predicate AllBlank(s: string) {
    forall i :: 0 <= i < |s| ==> IsSpace(s[i])
  }

  /** A blank line, or blanks and a comment. */
  predicate IsNoise(line: string) {
    AllBlank(line) || exists i :: 0 <= i < |line| && line[i] == '#' && forall j :: 0 <= j < i ==> IsSpace(line[j])
  }

  lemma {:induction false} StripStartIs(s: string) returns (k: nat)
    ensures k <= |s| && StripStart(s) == s[k..] && (k < |s| ==> !IsSpace(s[k]))
    ensures forall j :: 0 <= j < k ==> IsSpace(s[j])
  {
    if s != [] && IsSpace(s[0]) {
      var n := StripStartIs(s[1..]);
      k := n + 1;
      assert s[1..][n..] == s[k..];
      assert forall j :: 0 < j < k ==> s[j] == s[1..][j - 1];
    } else {
      k := 0;
    }
  }

  lemma {:induction false} StripEndEmpty(s: string)
    ensures StripEnd(s) == [] <==> AllBlank(s)
  {
    if s != [] && IsSpace(s[|s| - 1]) {
      StripEndEmpty(s[..|s| - 1]);
      assert forall i :: 0 <= i < |s| - 1 ==> s[i] == s[..|s| - 1][i];
    }
  }

  /** The reader skips exactly blank lines and comments. */
  lemma IgnoredIsNoise(line: string)
    ensures IsIgnored(line) <==> IsNoise(line)
  {
    var k := StripStartIs(line);
    StripEndEmpty(line[k..]);
    if k < |line| { assert line[k..][0] == line[k]; }
  }

  /** The lines that are read. */
  function Content(lines: seq<string>): (r: seq<string>) {
    if lines == [] then []
    else
      var before, last := Content(lines[..|lines| - 1]), lines[|lines| - 1];
      if IsNoise(last) then before else before + [last]
  }

  lemma {:induction false} RowsOfContent(lines: seq<string>)
    ensures RowsOf(lines) == RowsOf(Content(lines))
  {
    if lines != [] {
      var n := |lines| - 1;
      var before, last := Content(lines[..n]), lines[n];
      RowsOfContent(lines[..n]);
      IgnoredIsNoise(last);
      if !IsNoise(last) { assert (before + [last])[..|before|] == before; }
    }
  }

  // ---- Rows

  /** A row that survives being written: it is one line and starts neither a comment nor a blank. */
  ghost predicate SoundRow(r: Row) {
    && r.indent % 2 == 0
    && r.text != [] && !IsSpace(r.text[0]) && r.text[0] != '#'
    && OneLine(r.text)
  }

  ghost predicate AllSound(rows: seq<Row>) {
    forall i :: 0 <= i < |rows| ==> SoundRow(rows[i])
  }

  lemma WrittenIsSound(l: Line)
    requires Written(l) && l.indent % 2 == 0
    ensures SoundRow(ToRow(l))
  {
    match l
    case LeafLine(_, e, key, value) => EntryReads(key, value);
    case HeadingLine(_, e, key) => HeadingReads(key);
    case ItemLine(indent, n, value) => ItemIsSound(indent, value);
    case BelowLine(indent) => ItemIsSound(indent, []);
    case InlineLine(indent, e, key, value) =>
      EntryReads(key, value);
      ItemIsSound(indent, EntryText(key, value));
    case HeadingItemLine(indent, e, key) =>
      HeadingReads(key);
      ItemIsSound(indent, key + ":");
  }

  lemma ItemIsSound(indent: nat, text: string)
    requires indent % 2 == 0 && OneLine(text)
    ensures SoundRow(Row(indent, "- " + text))
  {
    OneLineJoined("- ", text);
  }

  lemma PrintedIsSound(n: Node, style: Style)
    requires IsBlock(n)
    ensures AllSound(ToRows(PrintFrom(n, 0, 0, style)))
  {
    var lines := PrintFrom(n, 0, 0, style);
    PrintedIsWritten(n, 0, 0, style);
    forall i | 0 <= i < |lines| ensures SoundRow(ToRows(lines)[i]) { WrittenIsSound(lines[i]); }
  }

  function LineOf(r: Row): (s: string) {
    Blanks(r.indent) + r.text
  }

  function Lines(rows: seq<Row>): (r: seq<string>) {
    seq(|rows|, i requires 0 <= i < |rows| => LineOf(rows[i]))
  }

  lemma {:induction false} BlanksLead(n: nat, text: string)
    requires text != [] && !IsSpace(text[0])
    ensures LeadingBlanks(Blanks(n) + text) == n
    ensures StripStart(Blanks(n) + text) == text
    decreases n
  {
    if n == 0 {
      assert Blanks(n) + text == text;
    } else {
      assert (Blanks(n) + text)[1..] == Blanks(n - 1) + text;
      BlanksLead(n - 1, text);
    }
  }

  lemma LineIsRow(r: Row)
    requires SoundRow(r)
    ensures !IsIgnored(LineOf(r)) && RowOf(LineOf(r)) == Ok(r) && Unbroken(LineOf(r))
  {
    var line := LineOf(r);
    BlanksLead(r.indent, r.text);
    StripEndEmpty(r.text);
    assert line[r.indent..] == r.text;
    forall i | 0 <= i < |line| ensures line[i] != '\t' && !IsLineBreak(line[i]) {
      if i >= r.indent { assert line[i] == r.text[i - r.indent]; }
    }
  }

  lemma {:induction false} LinesAreRows(rows: seq<Row>)
    requires AllSound(rows)
    ensures RowsOf(Lines(rows)) == Ok(rows)
  {
    if rows != [] {
      var n := |rows| - 1;
      LinesAreRows(rows[..n]);
      LineIsRow(rows[n]);
      assert Lines(rows)[..n] == Lines(rows[..n]) && Lines(rows)[n] == LineOf(rows[n]);
      assert rows == rows[..n] + [rows[n]];
    }
  }

  // ---- The round trip

  /** The page holds the printed document and, around its rows, any blank lines and comments. */
  ghost predicate Shows(page: seq<Ended>, n: Node, style: Style)
    requires IsBlock(n)
  {
    IsPage(page) && Content(LinesOf(page)) == Lines(ToRows(PrintFrom(n, 0, 0, style)))
  }

  /** Every document, a non-empty mapping with any lists, mappings and leaves in it, survives
      being printed in any style, on any page, and read. */
  lemma RoundTrip(n: Node, style: Style, page: seq<Ended>)
    requires Proper(n) && n.Map? && n.entries != [] && Shows(page, n, style)
    ensures ParseDocument(PageText(page)) == Ok(n)
  {
    var rows := ToRows(PrintFrom(n, 0, 0, style));
    SplitPage(page);
    RowsOfContent(LinesOf(page));
    PrintedIsSound(n, style);
    LinesAreRows(rows);
    RowsRoundTrip(n, style);
  }

  /** The page with nothing but the printed rows, each ended by a line feed. */
  function BarePage(lines: seq<string>): (page: seq<Ended>) {
    seq(|lines|, i requires 0 <= i < |lines| => Ended(lines[i], "\n"))
  }

  lemma {:induction false} ContentOfRows(rows: seq<Row>)
    requires AllSound(rows)
    ensures Content(Lines(rows)) == Lines(rows)
  {
    if rows != [] {
      var n := |rows| - 1;
      ContentOfRows(rows[..n]);
      LineIsRow(rows[n]);
      IgnoredIsNoise(LineOf(rows[n]));
      assert Lines(rows)[..n] == Lines(rows[..n]) && Lines(rows)[n] == LineOf(rows[n]);
    }
  }

  /** Every document has such a page in every style. */
  lemma PageExists(n: Node, style: Style)
    requires IsBlock(n)
    ensures Shows(BarePage(Lines(ToRows(PrintFrom(n, 0, 0, style)))), n, style)
  {
    var rows := ToRows(PrintFrom(n, 0, 0, style));
    var page := BarePage(Lines(rows));
    PrintedIsSound(n, style);
    ContentOfRows(rows);
    assert LinesOf(page) == Lines(rows);
    forall i | 0 <= i < |rows| ensures Unbroken(page[i].line) { LineIsRow(rows[i]); }
  }
}
