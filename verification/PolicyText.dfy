/**
 The texts of a printed policy document: leaves, keys and list items, and what the parser's
 text functions make of them.
 */
module PolicyText {
  import opened Wrappers
  import opened Decimals
  import opened PolicyDocument
  import opened Texts
  import J = JsonString

  predicate IsLeaf(n: Node) {
    match n
    case List(items) => items == []
    case Map(entries) => entries == []
    case _ => true
  }

  // ---- Writing strings

  /** How a string is written: as a JSON literal, between single quotes, or as it is. */
  datatype Quoting = DoubleQuoted | SingleQuoted | Plain

  predicate Solid(s: string) {
    s != [] && !IsSpace(s[0]) && !IsSpace(s[|s| - 1])
  }

  predicate OneLine(s: string) {
    forall i :: 0 <= i < |s| ==> !IsLineBreak(s[i]) && s[i] != '\t'
  }

  predicate IsKeyword(s: string) {
    s == "null" || s == "true" || s == "false" || s == "[]" || s == "{}"
  }

  /** A string that stands for itself as a value. */
  predicate PlainScalar(s: string) {
    && Solid(s) && OneLine(s) && !IsKeyword(s) && !IsInteger(s)
    && s[0] != '"' && s[0] != '[' && s[0] != '{' && !(s[0] == '\'' && s[|s| - 1] == '\'')
  }

  /** A string that stands for itself as a key: it starts no comment or item, opens no quote and
      holds no separator. */
  predicate PlainKey(s: string) {
    && PlainScalar(s) && s[0] != '#' && !StartsItem(s) && '"' !in s && '\'' !in s
    && forall i :: 0 <= i < |s| - 1 && s[i] == ':' ==> !IsSpace(s[i + 1])
  }

  function Doubled(s: string): (r: string) {
    if s == [] then [] else (if s[0] == '\'' then ['\'', '\''] else [s[0]]) + Doubled(s[1..])
  }

  /** The string between single quotes, its own single quotes doubled. */
  function SingleQuote(s: string): (r: string)
    ensures |r| >= 2 && r[0] == '\'' && r[|r| - 1] == '\''
  {
    ['\''] + Doubled(s) + ['\'']
  }

  function WriteKey(key: string, q: Quoting): (s: string) {
    if q.Plain? && PlainKey(key) then key
    else if q.SingleQuoted? && OneLine(key) && Survives(key, Single, EndsQuoted(key)) then SingleQuote(key)
    else J.Quote(key)
  }

  function WriteText(text: string, q: Quoting): (s: string) {
    if q.Plain? && PlainScalar(text) then text
    else if q.SingleQuoted? && OneLine(text) then SingleQuote(text)
    else J.Quote(text)
  }

  /** A list item with a colon would be read as a mapping. */
  function WriteItemText(text: string, q: Quoting): (s: string) {
    if q.Plain? && PlainScalar(text) && ':' !in text then text
    else if q.SingleQuoted? && OneLine(text) && ':' !in text then SingleQuote(text)
    else J.QuoteColonFree(text)
  }

  /** A leaf that is no string. */
  function PrintOther(n: Node): (s: string)
    requires IsLeaf(n) && !n.Str?
  {
    match n
    case Null => "null"
    case Bool(b) => if b then "true" else "false"
    case Int(i) => if i < 0 then ['-'] + Decimal(0 - i) else Decimal(i)
    case List(_) => "[]"
    case Map(_) => "{}"
  }

  function WriteLeaf(n: Node, q: string -> Quoting): (s: string)
    requires IsLeaf(n)
  {
    if n.Str? then WriteText(n.s, q(n.s)) else PrintOther(n)
  }

  function WriteItem(n: Node, q: string -> Quoting): (s: string)
    requires IsLeaf(n)
  {
    if n.Str? then WriteItemText(n.s, q(n.s)) else PrintOther(n)
  }

  predicate Fits(text: string) {
    Solid(text) && OneLine(text)
  }

  /** The text is read as this scalar. */
  ghost predicate ScalarReads(text: string, n: Node) {
    Fits(text) && ParseScalar(text) == Ok(n)
  }

  /** The text can begin a row, and is split off at its colon whatever stands behind that. */
  ghost predicate KeyFits(text: string) {
    && Fits(text) && text[0] != '#' && !StartsItem(text)
    && forall rest: string :: rest == [] || rest[0] == ' ' ==> SplitsAt(text, rest)
  }

  /** The text is read as this key. */
  ghost predicate KeyReads(text: string, key: string) {
    KeyFits(text) && ParseKey(text) == Ok(key)
  }

  ghost predicate SplitsAt(text: string, rest: string) {
    SplitMapping(text + ":" + rest) == Ok((text, Strip(rest)))
  }

  // ---- Separators and scalars

  /** Inside a double-quoted literal a character that is neither quote nor backslash is passed. */
  lemma ScanPlain(s: string, i: nat)
    requires i < |s| && s[i] != '"' && s[i] != '\\'
    ensures FindSeparator(s, i, Double(false)) == FindSeparator(s, i + 1, Double(false))
  {
  }

  /** A backslash and the character after it are passed together. */
  lemma ScanEscape(s: string, i: nat)
    requires i + 1 < |s| && s[i] == '\\'
    ensures FindSeparator(s, i, Double(false)) == FindSeparator(s, i + 2, Double(false))
  {
    assert NextQuote(s, i, Double(false)) == Double(true);
    assert FindSeparator(s, i + 1, Double(true)) == FindSeparator(s, i + 2, Double(false));
  }

  lemma ScanUnit(s: string, i: nat, u: nat)
    requires u < 0x1_0000 && i + 6 <= |s| && s[i..i + 6] == J.UnitEscape(u)
    ensures FindSeparator(s, i, Double(false)) == FindSeparator(s, i + 6, Double(false))
  {
    var e := J.UnitEscape(u);
    assert s[i] == e[0] && s[i + 2] == e[2] && s[i + 3] == e[3] && s[i + 4] == e[4] && s[i + 5] == e[5];
    ScanEscape(s, i);
    HexIsPlain(e[2]);
    ScanPlain(s, i + 2);
    HexIsPlain(e[3]);
    ScanPlain(s, i + 3);
    HexIsPlain(e[4]);
    ScanPlain(s, i + 4);
    HexIsPlain(e[5]);
    ScanPlain(s, i + 5);
  }

  lemma HexIsPlain(c: char)
    requires J.IsHex(c)
    ensures c != '"' && c != '\\'
  {
  }

  lemma ScanChar(s: string, i: nat, c: char)
    requires i + |J.EscapeChar(c)| <= |s| && s[i..i + |J.EscapeChar(c)|] == J.EscapeChar(c)
    ensures FindSeparator(s, i, Double(false)) == FindSeparator(s, i + |J.EscapeChar(c)|, Double(false))
  {
    var e := J.EscapeChar(c);
    assert s[i] == e[0];
    if |e| == 1 {
      ScanPlain(s, i);
    } else if |e| == 2 {
      ScanEscape(s, i);
    } else if |e| == 6 {
      ScanUnit(s, i, c as nat);
    } else {
      var v := c as nat - 0x1_0000;
      assert s[i..i + 6] == e[..6] == J.UnitEscape(0xD800 + v / 0x400);
      assert s[i + 6..i + 12] == e[6..] == J.UnitEscape(0xDC00 + v % 0x400);
      ScanUnit(s, i, 0xD800 + v / 0x400);
      ScanUnit(s, i + 6, 0xDC00 + v % 0x400);
    }
  }

  lemma Slices(s: string, i: nat, a: string, b: string)
    requires At(s, i, a + b)
    ensures At(s, i, a) && At(s, i + |a|, b) && |a + b| == |a| + |b|
  {
    assert s[i..i + |a|] == (a + b)[..|a|];
    assert s[i + |a|..i + |a| + |b|] == (a + b)[|a|..];
  }

  ghost predicate EscapedAt(s: string, i: nat, c: char) {
    i + |J.EscapeChar(c)| <= |s| && s[i..i + |J.EscapeChar(c)|] == J.EscapeChar(c)
  }

  ghost predicate Passes(g: nat -> nat, s: string) {
    forall j: nat, c {:trigger EscapedAt(s, j, c)} :: EscapedAt(s, j, c) ==> g(j) == g(j + |J.EscapeChar(c)|)
  }

  /** A scan that passes over any one escaped character passes over a whole literal. */
  lemma {:induction false} ScanAll(g: nat -> nat, s: string, i: nat, k: string)
    requires Passes(g, s)
    requires At(s, i, J.EscapeAll(k))
    ensures g(i) == g(i + |J.EscapeAll(k)|)
    decreases |k|
  {
    if k == [] {
      assert |J.EscapeAll(k)| == 0;
    } else {
      var e, rest := J.EscapeChar(k[0]), J.EscapeAll(k[1..]);
      EscapeAllStep(k);
      ScanFirst(g, s, i, k[0], e, rest);
      ScanAll(g, s, i + |e|, k[1..]);
    }
  }

  lemma ScanFirst(g: nat -> nat, s: string, i: nat, c: char, e: string, rest: string)
    requires Passes(g, s) && e == J.EscapeChar(c) && At(s, i, e + rest)
    ensures g(i) == g(i + |e|) && At(s, i + |e|, rest) && |e + rest| == |e| + |rest|
  {
    Slices(s, i, e, rest);
    PassOne(g, s, i, c);
  }

  ghost predicate At(s: string, i: nat, part: string) {
    i + |part| <= |s| && s[i..i + |part|] == part
  }

  lemma EscapeAllStep(k: string)
    requires k != []
    ensures J.EscapeAll(k) == J.EscapeChar(k[0]) + J.EscapeAll(k[1..])
  {
  }

  lemma PassOne(g: nat -> nat, s: string, i: nat, c: char)
    requires Passes(g, s) && EscapedAt(s, i, c)
    ensures g(i) == g(i + |J.EscapeChar(c)|)
  {
  }

  function QuotedSeparator(s: string, j: nat): (k: nat) {
    if j <= |s| then FindSeparator(s, j, Double(false)) else 0
  }

  lemma SeparatorPasses(s: string)
    ensures Passes((j: nat) => QuotedSeparator(s, j), s)
  {
    var g := (j: nat) => QuotedSeparator(s, j);
    forall j: nat, c {:trigger EscapedAt(s, j, c)} | EscapedAt(s, j, c) ensures g(j) == g(j + |J.EscapeChar(c)|) {
      ScanChar(s, j, c);
    }
  }

  lemma ScanEscaped(s: string, i: nat, k: string)
    requires i + |J.EscapeAll(k)| <= |s| && s[i..i + |J.EscapeAll(k)|] == J.EscapeAll(k)
    ensures QuotedSeparator(s, i) == QuotedSeparator(s, i + |J.EscapeAll(k)|)
  {
    SeparatorPasses(s);
    ScanAll((j: nat) => QuotedSeparator(s, j), s, i, k);
  }

  /** A quoted key followed by a colon and a blank, or by a colon at the end, is split there. */
  lemma SplitQuoted(key: string, rest: string)
    requires rest == [] || rest[0] == ' '
    ensures SplitMapping(J.Quote(key) + ":" + rest) == Ok((J.Quote(key), Strip(rest)))
  {
    var q := J.Quote(key);
    var s := q + ":" + rest;
    assert s[..|q|] == q && s[|q|] == ':' && s[|q| + 1..] == rest;
    ScanQuoted(s, key);
    assert IsSeparator(s, |q|, Unquoted) by {
      if rest != [] { assert s[|q| + 1] == rest[0]; }
    }
    StripSolid(q);
  }

  lemma ScanQuoted(s: string, key: string)
    requires |J.Quote(key)| <= |s| && s[..|J.Quote(key)|] == J.Quote(key)
    ensures FindSeparator(s, 0, Unquoted) == FindSeparator(s, |J.Quote(key)|, Unquoted)
  {
    QuotedBetween(s, key);
    ScanBetween(s, key);
  }

  lemma QuotedBetween(s: string, key: string)
    requires |J.Quote(key)| <= |s| && s[..|J.Quote(key)|] == J.Quote(key)
    ensures |J.Quote(key)| == |J.EscapeAll(key)| + 2
    ensures s[0] == '"' && s[1 + |J.EscapeAll(key)|] == '"' && s[1..1 + |J.EscapeAll(key)|] == J.EscapeAll(key)
  {
    InsideQuotes(s, J.EscapeAll(key));
  }

  lemma InsideQuotes(s: string, body: string)
    requires |body| + 2 <= |s| && s[..|body| + 2] == ['"'] + body + ['"']
    ensures s[0] == '"' && s[1 + |body|] == '"' && s[1..1 + |body|] == body
  {
    var n, q := |body|, ['"'] + body + ['"'];
    assert s[0] == q[0] && s[1 + n] == q[1 + n];
    assert s[1..1 + n] == q[1..1 + n] == body;
  }

  lemma ScanBetween(s: string, key: string)
    requires |J.EscapeAll(key)| + 2 <= |s| && s[0] == '"' && s[1 + |J.EscapeAll(key)|] == '"'
    requires s[1..1 + |J.EscapeAll(key)|] == J.EscapeAll(key)
    ensures FindSeparator(s, 0, Unquoted) == FindSeparator(s, |J.EscapeAll(key)| + 2, Unquoted)
  {
    ScanOpening(s, 0);
    ScanEscaped(s, 1, key);
    ScanClosing(s, 1 + |J.EscapeAll(key)|);
  }

  lemma ScanOpening(s: string, i: nat)
    requires i < |s| && s[i] == '"'
    ensures FindSeparator(s, i, Unquoted) == FindSeparator(s, i + 1, Double(false))
  {
  }

  lemma ScanClosing(s: string, i: nat)
    requires i < |s| && s[i] == '"'
    ensures FindSeparator(s, i, Double(false)) == FindSeparator(s, i + 1, Unquoted)
  {
  }

  lemma StripSolid(s: string)
    requires Solid(s)
    ensures Strip(s) == s
  {
  }

  lemma StripAfterBlank(s: string)
    requires Solid(s)
    ensures Strip([' '] + s) == s
  {
    assert ([' '] + s)[1..] == s;
    assert StripStart([' '] + s) == StripStart(s);
    StripSolid(s);
  }

  lemma NoKeyword(s: string)
    requires s != [] && (s[0] == '"' || s[0] == '\'' || s[0] == '-' || '0' <= s[0] <= '9')
    ensures !IsKeyword(s)
  {
    assert "null"[0] == 'n' && "true"[0] == 't' && "false"[0] == 'f' && "[]"[0] == '[' && "{}"[0] == '{';
  }

  lemma Printable(s: string)
    requires forall i :: 0 <= i < |s| ==> ' ' <= s[i] <= '~'
    ensures OneLine(s)
  {
  }

  // ---- Scalars, each style

  lemma DoubleQuotedReads(s: string)
    ensures ScalarReads(J.Quote(s), Str(s))
  {
    J.QuoteRoundTrip(s);
    J.EscapeAllPrintable(s);
    NoKeyword(J.Quote(s));
    Printable(J.Quote(s));
  }

  lemma {:induction false} Undoubled(s: string)
    ensures Replace(Doubled(s), "''", "'") == s
  {
    if s != [] {
      Undoubled(s[1..]);
      var d, rest := Doubled(s), Doubled(s[1..]);
      if s[0] == '\'' {
        assert d == "''" + rest && d[2..] == rest;
      } else {
        assert d[0] == s[0] && d[1..] == rest;
      }
      assert s == [s[0]] + s[1..];
    }
  }

  lemma {:induction false} DoubledChars(s: string)
    ensures forall c :: c in Doubled(s) <==> c in s
  {
    if s != [] {
      DoubledChars(s[1..]);
      assert s == [s[0]] + s[1..];
    }
  }

  lemma SingleQuotedOneLine(s: string)
    requires OneLine(s)
    ensures OneLine(SingleQuote(s))
  {
    var q := SingleQuote(s);
    DoubledChars(s);
    forall i | 0 <= i < |q| ensures !IsLineBreak(q[i]) && q[i] != '\t' {
      if 0 < i < |q| - 1 {
        assert q[i] == Doubled(s)[i - 1] && q[i] in s;
        var j :| 0 <= j < |s| && s[j] == q[i];
      }
    }
  }

  lemma SingleQuotedReads(s: string)
    requires OneLine(s)
    ensures ScalarReads(SingleQuote(s), Str(s))
  {
    var q := SingleQuote(s);
    assert q[1..|q| - 1] == Doubled(s);
    Undoubled(s);
    NoKeyword(q);
    SingleQuotedOneLine(s);
  }

  lemma PlainReads(s: string)
    requires PlainScalar(s)
    ensures ScalarReads(s, Str(s))
  {
  }

  /** What is refused: an empty text, an open bracket that is no empty list or mapping, and a
      double quote that begins no JSON literal. */
  lemma ScalarRefusedIff(text: string)
    ensures ParseScalar(text).Refused? <==>
            || text == []
            || ((text[0] == '[' || text[0] == '{') && text != "[]" && text != "{}")
            || (text[0] == '"' && J.Decode(text).None?)
  {
    if text != [] { assert !(text[0] == '[' && IsInteger(text)) && !(text[0] == '{' && IsInteger(text)); }
  }

  lemma WrittenText(text: string, q: Quoting)
    ensures ScalarReads(WriteText(text, q), Str(text))
  {
    if q.Plain? && PlainScalar(text) {
      PlainReads(text);
    } else if q.SingleQuoted? && OneLine(text) {
      SingleQuotedReads(text);
    } else {
      DoubleQuotedReads(text);
    }
  }

  lemma PrintedOther(n: Node)
    requires IsLeaf(n) && !n.Str?
    ensures ScalarReads(PrintOther(n), n) && ':' !in PrintOther(n)
  {
    match n
    case Int(i) => PrintedInt(i);
    case Bool(b) => assert "true"[0] == 't' && "false"[0] == 'f';
    case _ =>
  }

  lemma PrintedInt(i: int)
    ensures ScalarReads(PrintOther(Int(i)), Int(i)) && ':' !in PrintOther(Int(i))
  {
    var s := PrintOther(Int(i));
    if i < 0 {
      assert s[1..] == Decimal(0 - i);
      DecimalRoundTrip(0 - i);
    } else {
      DecimalRoundTrip(i);
    }
    assert IsInteger(s) && IntegerValue(s) == i;
    IntegerScalar(s);
  }

  lemma IntegerScalar(s: string)
    requires IsInteger(s)
    ensures ScalarReads(s, Int(IntegerValue(s))) && ':' !in s
  {
    assert s[0] == '-' || '0' <= s[0] <= '9';
    forall i | 0 <= i < |s| ensures s[i] == '-' || '0' <= s[i] <= '9' {
      if !AllDigits(s) && i > 0 { assert s[1..][i - 1] == s[i]; }
    }
    NoKeyword(s);
  }

  lemma WrittenLeaf(n: Node, q: string -> Quoting)
    requires IsLeaf(n)
    ensures ScalarReads(WriteLeaf(n, q), n)
  {
    if n.Str? { WrittenText(n.s, q(n.s)); } else { PrintedOther(n); }
  }

  lemma ColonFreeReads(s: string)
    ensures ScalarReads(J.QuoteColonFree(s), Str(s)) && ':' !in J.QuoteColonFree(s)
  {
    J.ColonFreeRoundTrip(s);
    J.ColonFreePlain(s);
    NoKeyword(J.QuoteColonFree(s));
    Printable(J.QuoteColonFree(s));
  }

  lemma WrittenItem(n: Node, q: string -> Quoting)
    requires IsLeaf(n)
    ensures ScalarReads(WriteItem(n, q), n) && ':' !in WriteItem(n, q)
  {
    if n.Str? { WrittenItemText(n.s, q(n.s)); } else { PrintedOther(n); }
  }

  lemma WrittenItemText(text: string, q: Quoting)
    ensures ScalarReads(WriteItemText(text, q), Str(text)) && ':' !in WriteItemText(text, q)
  {
    if q.Plain? && PlainScalar(text) && ':' !in text {
      PlainReads(text);
    } else if q.SingleQuoted? && OneLine(text) && ':' !in text {
      SingleQuotedReads(text);
      DoubledChars(text);
    } else {
      ColonFreeReads(text);
    }
  }

  // ---- Keys, each style

  lemma DoubleQuotedKey(key: string)
    ensures KeyReads(J.Quote(key), key)
  {
    DoubleQuotedReads(key);
    forall rest: string | rest == [] || rest[0] == ' ' ensures SplitsAt(J.Quote(key), rest) {
      SplitQuoted(key, rest);
    }
  }

  /** The separator behind a text that leaves no quote open. */
  lemma SplitBehind(text: string, rest: string)
    requires Solid(text) && (rest == [] || rest[0] == ' ')
    requires var s := text + ":" + rest; FindSeparator(s, 0, Unquoted) == FindSeparator(s, |text|, Unquoted)
    ensures SplitsAt(text, rest)
  {
    var s := text + ":" + rest;
    assert s[..|text|] == text && s[|text|] == ':' && s[|text| + 1..] == rest;
    assert IsSeparator(s, |text|, Unquoted) by {
      if rest != [] { assert s[|text| + 1] == rest[0]; }
    }
    StripSolid(text);
  }

  lemma {:induction false} ScanUnquoted(s: string, i: nat, n: nat)
    requires i <= n <= |s|
    requires forall j :: i <= j < n ==> s[j] != '"' && s[j] != '\'' && !IsSeparator(s, j, Unquoted)
    ensures FindSeparator(s, i, Unquoted) == FindSeparator(s, n, Unquoted)
    decreases n - i
  {
    if i < n { ScanUnquoted(s, i + 1, n); }
  }

  lemma PlainKeyReads(key: string)
    requires PlainKey(key)
    ensures KeyReads(key, key)
  {
    forall rest: string | rest == [] || rest[0] == ' ' ensures SplitsAt(key, rest) {
      var s := key + ":" + rest;
      forall j | 0 <= j < |key| ensures s[j] != '"' && s[j] != '\'' && !IsSeparator(s, j, Unquoted) {
        assert s[j] == key[j];
        assert s[j + 1] == if j + 1 < |key| then key[j + 1] else ':';
      }
      ScanUnquoted(s, 0, |key|);
      SplitBehind(key, rest);
    }
  }

  lemma SingleQuotedKey(key: string)
    requires OneLine(key) && Survives(key, Single, EndsQuoted(key))
    ensures KeyReads(SingleQuote(key), key)
  {
    SingleQuotedReads(key);
    forall rest: string | rest == [] || rest[0] == ' ' ensures SplitsAt(SingleQuote(key), rest) {
      SingleQuotedKeyIff(key, rest);
    }
  }

  lemma WrittenKey(key: string, q: Quoting)
    ensures KeyReads(WriteKey(key, q), key)
  {
    if q.Plain? && PlainKey(key) {
      PlainKeyReads(key);
    } else if q.SingleQuoted? && OneLine(key) && Survives(key, Single, EndsQuoted(key)) {
      SingleQuotedKey(key);
    } else {
      DoubleQuotedKey(key);
    }
  }

  // ---- Which keys survive single quotes

  /** The quote state in front of the `n`-th character. */
  function StateAt(s: string, n: nat): (q: QuoteState)
    requires n <= |s|
  {
    if n == 0 then Unquoted else NextQuote(s, n - 1, StateAt(s, n - 1))
  }

  /** A separator is found only outside all quotes. */
  lemma {:induction false} FoundUnquoted(s: string, i: nat)
    requires i <= |s|
    ensures var k := FindSeparator(s, i, StateAt(s, i)); k < |s| ==> IsSeparator(s, k, StateAt(s, k))
    decreases |s| - i
  {
    if i < |s| && !IsSeparator(s, i, StateAt(s, i)) { FoundUnquoted(s, i + 1); }
  }

  /** What stands from some character of a key on: its quotes doubled, a quote and a colon. */
  function Remaining(u: string): (r: string) {
    Doubled(u) + ['\'', ':']
  }

  lemma RemainingNext(s: string, i: nat, u: string)
    requires At(s, i, Remaining(u)) && u != []
    ensures var next := i + if u[0] == '\'' then 2 else 1;
            && At(s, next, Remaining(u[1..])) && next < |s| && s[i] == u[0]
            && (u[0] == '\'' ==> s[i + 1] == '\'')
            && s[next] == if |u| > 1 then u[1] else '\''
  {
    var first := if u[0] == '\'' then ['\'', '\''] else [u[0]];
    assert Remaining(u) == first + Remaining(u[1..]);
    Slices(s, i, first, Remaining(u[1..]));
    AtFirst(s, i, first);
    AtFirst(s, i + |first|, Remaining(u[1..]));
    if u[0] == '\'' { assert s[i + 1] == s[i..i + 2][1]; }
  }

  lemma AtFirst(s: string, i: nat, part: string)
    requires At(s, i, part) && part != []
    ensures i < |s| && s[i] == part[0]
  {
    assert s[i] == s[i..i + |part|][0];
  }

  lemma SplitElsewhere(text: string, rest: string)
    requires Solid(text) && StateAt(text + ":" + rest, |text|) != Unquoted
    ensures !SplitsAt(text, rest)
  {
    var s := text + ":" + rest;
    var k := FindSeparator(s, 0, Unquoted);
    FoundUnquoted(s, 0);
    assert s[..|text|] == text && s[|text|] == ':';
    if k < |s| {
      assert k != |text|;
      StripLength(s[..k]);
      if k > |text| { StripKeeps(s[..k], |text|); }
    }
  }

  lemma {:induction false} StripLength(s: string)
    ensures |Strip(s)| <= |s|
  {
    StripStartLength(s);
    StripEndLength(StripStart(s));
  }

  lemma {:induction false} StripStartLength(s: string)
    ensures |StripStart(s)| <= |s|
  {
    if s != [] { StripStartLength(s[1..]); }
  }

  lemma {:induction false} StripEndLength(s: string)
    ensures |StripEnd(s)| <= |s|
  {
    if s != [] { StripEndLength(s[..|s| - 1]); }
  }

  /** Stripping keeps everything up to a character that is no blank. */
  lemma StripKeeps(s: string, n: nat)
    requires n < |s| && !IsSpace(s[0]) && !IsSpace(s[n])
    ensures |Strip(s)| > n
  {
    StripEndKeeps(s, n);
  }

  lemma {:induction false} StripEndKeeps(s: string, n: nat)
    requires n < |s| && !IsSpace(s[n])
    ensures |StripEnd(s)| > n
    decreases |s|
  {
    if IsSpace(s[|s| - 1]) { StripEndKeeps(s[..|s| - 1], n); }
  }

  /** A scan of a key between single quotes, one character on.  A single quote that is followed by
      another character ends the quoted part; from there on only double quotes are tracked. */
  function KeyStep(u: string, q: QuoteState): (r: QuoteState)
    requires u != []
  {
    match q
    case Single => if u[0] == '\'' && |u| > 1 && u[1] != '\'' then Unquoted else Single
    case Unquoted => if u[0] == '"' then Double(false) else Unquoted
    case Double(escaped) =>
      if escaped then Double(false)
      else if u[0] == '\\' then Double(true)
      else if u[0] == '"' then Unquoted
      else q
  }

  /** A colon outside all quotes with a blank behind it. */
  predicate Separates(u: string, q: QuoteState) {
    q.Unquoted? && |u| > 1 && u[0] == ':' && IsSpace(u[1])
  }

  /** The rest of a key comes through: no separator shows, and at its end the quoted part still goes
      on, or everything is closed and the key ends with a single quote. */
  predicate Survives(u: string, q: QuoteState, ends: bool) {
    if u == [] then q.Single? || (q.Unquoted? && ends)
    else !Separates(u, q) && Survives(u[1..], KeyStep(u, q), ends)
  }

  predicate EndsQuoted(key: string) {
    key != [] && key[|key| - 1] == '\''
  }

  /** The reader's state in front of the rest `u` of a key, where the scan of the key is in state `q`:
      the same, but within a run of single quotes outside the quoted part. */
  ghost predicate Tracks(st: QuoteState, q: QuoteState, u: string, ends: bool) {
    if !q.Unquoted? then st == q
    else if u == [] then st == if ends then Single else Unquoted
    else st == Unquoted || (st == Single && u[0] == '\'')
  }

  lemma OneKeyChar(s: string, i: nat, u: string, q: QuoteState, ends: bool)
    requires At(s, i, Remaining(u)) && u != [] && Tracks(StateAt(s, i), q, u, ends)
    requires |u| == 1 ==> (ends <==> u[0] == '\'')
    ensures var next := i + if u[0] == '\'' then 2 else 1;
            && At(s, next, Remaining(u[1..])) && next < |s|
            && Tracks(StateAt(s, next), KeyStep(u, q), u[1..], ends)
            && (IsSeparator(s, i, StateAt(s, i)) <==> Separates(u, q))
            && (u[0] == '\'' ==> !IsSeparator(s, i + 1, StateAt(s, i + 1)))
  {
    RemainingNext(s, i, u);
    if u[0] == '\'' { assert StateAt(s, i + 2) == NextQuote(s, i + 1, NextQuote(s, i, StateAt(s, i))); }
  }

  lemma {:induction false} ScanKey(s: string, i: nat, u: string, q: QuoteState, ends: bool, n: nat)
    requires At(s, i, Remaining(u)) && Tracks(StateAt(s, i), q, u, ends) && n == i + |Doubled(u)| + 1
    requires u != [] ==> (ends <==> EndsQuoted(u))
    ensures i < n < |s|
    ensures Survives(u, q, ends) ==>
              FindSeparator(s, i, StateAt(s, i)) == FindSeparator(s, n, Unquoted) && StateAt(s, n) == Unquoted
    ensures !Survives(u, q, ends) ==> FindSeparator(s, i, StateAt(s, i)) < n || StateAt(s, n) != Unquoted
    decreases |u|
  {
    if u == [] {
      assert s[i] == s[i..i + 2][0] && s[i + 1] == s[i..i + 2][1];
    } else {
      var next := i + if u[0] == '\'' then 2 else 1;
      OneKeyChar(s, i, u, q, ends);
      assert |u| > 1 ==> u[1..][|u| - 2] == u[|u| - 1];
      ScanKey(s, next, u[1..], KeyStep(u, q), ends, n);
      if !Separates(u, q) { PassKeyChar(s, i, u); }
    }
  }

  lemma PassKeyChar(s: string, i: nat, u: string)
    requires u != [] && At(s, i, Remaining(u)) && !IsSeparator(s, i, StateAt(s, i))
    requires u[0] == '\'' ==> !IsSeparator(s, i + 1, StateAt(s, i + 1))
    ensures var next := i + if u[0] == '\'' then 2 else 1;
            FindSeparator(s, i, StateAt(s, i)) == FindSeparator(s, next, StateAt(s, next))
  {
    if u[0] == '\'' {
      assert FindSeparator(s, i + 1, StateAt(s, i + 1)) == FindSeparator(s, i + 2, StateAt(s, i + 2));
    }
  }

  /** Exactly which keys are read back when they are written between single quotes. */
  lemma SingleQuotedKeyIff(key: string, rest: string)
    requires rest == [] || rest[0] == ' '
    ensures SplitsAt(SingleQuote(key), rest) <==> Survives(key, Single, EndsQuoted(key))
  {
    var q := SingleQuote(key);
    var s := q + ":" + rest;
    assert s[1..1 + |Remaining(key)|] == Remaining(key);
    assert s[0] == '\'' && StateAt(s, 1) == NextQuote(s, 0, StateAt(s, 0));
    ScanKey(s, 1, key, Single, EndsQuoted(key), |q|);
    assert FindSeparator(s, 0, Unquoted) == FindSeparator(s, 1, Single);
    if Survives(key, Single, EndsQuoted(key)) {
      SplitBehind(q, rest);
    } else if StateAt(s, |q|) != Unquoted {
      SplitElsewhere(q, rest);
    } else {
      SplitTooEarly(q, rest);
    }
  }

  lemma SplitTooEarly(text: string, rest: string)
    requires FindSeparator(text + ":" + rest, 0, Unquoted) < |text|
    ensures !SplitsAt(text, rest)
  {
    var s := text + ":" + rest;
    StripLength(s[..FindSeparator(s, 0, Unquoted)]);
  }

  /** No single quote is followed by anything but single quotes. */
  predicate QuotesAtEnd(s: string) {
    forall i :: 0 <= i < |s| - 1 && s[i] == '\'' ==> s[i + 1] == '\''
  }

  /** In particular: keys without single quotes and keys with single quotes at their end only come
      through; keys with a single quote and another character at their end do not. */
  lemma {:induction false} SurvivesWhen(key: string)
    ensures QuotesAtEnd(key) ==> Survives(key, Single, EndsQuoted(key))
    ensures '\'' in key && !EndsQuoted(key) ==> !Survives(key, Single, EndsQuoted(key))
  {
    if QuotesAtEnd(key) { QuotedToTheEnd(key, EndsQuoted(key)); }
    if '\'' in key && !EndsQuoted(key) { LeavesQuotes(key); }
  }

  lemma {:induction false} QuotedToTheEnd(u: string, ends: bool)
    requires QuotesAtEnd(u)
    ensures Survives(u, Single, ends)
  {
    if u != [] {
      assert forall i :: 0 <= i < |u[1..]| ==> u[1..][i] == u[i + 1];
      QuotedToTheEnd(u[1..], ends);
    }
  }

  lemma {:induction false} LeavesQuotes(u: string)
    requires '\'' in u && !EndsQuoted(u)
    ensures !Survives(u, Single, false)
  {
    assert |u| > 1 && u[1..][|u| - 2] == u[|u| - 1];
    if u[0] == '\'' && u[1] != '\'' { NeverQuotedAgain(u[1..], Unquoted); } else { LeavesQuotes(u[1..]); }
  }

  lemma {:induction false} NeverQuotedAgain(u: string, q: QuoteState)
    requires !q.Single?
    ensures !Survives(u, q, false)
    decreases |u|
  {
    if u != [] && !Separates(u, q) { NeverQuotedAgain(u[1..], KeyStep(u, q)); }
  }

  /** The shortest example. */
  lemma ApostropheKeyRefused()
    ensures SplitMapping("'a''b': c").Refused?
  {
    var s := "'a''b': c";
    assert |s| == 9 && s[0] == '\'' && s[2] == '\'' && s[3] == '\'' && s[5] == '\'';
    assert StateAt(s, 1) == Single && StateAt(s, 2) == Single && StateAt(s, 3) == Single && StateAt(s, 4) == Unquoted;
    assert StateAt(s, 5) == Unquoted && StateAt(s, 6) == Single;
    FoundUnquoted(s, 0);
  }

  // ---- Rows

  /** The text of a list item without its dash. */
  lemma ItemRemainder(text: string)
    requires Solid(text)
    ensures StartsItem("- " + text) && Strip(("- " + text)[2..]) == text
  {
    assert ("- " + text)[2..] == text;
    StripSolid(text);
  }

  lemma EmptyRemainder()
    ensures StartsItem("- ") && Strip("- "[2..]) == []
  {
    assert "- "[2..] == [];
  }

  function EntryText(key: string, value: string): (s: string) {
    key + ":" + ([' '] + value)
  }

  /** A text that can be a row, or stand behind the dash of one, and is a mapping entry. */
  predicate EntryShape(s: string) {
    Solid(s) && OneLine(s) && ':' in s && !StartsItem(s) && s[0] != '#'
  }

  lemma EntryReads(key: string, value: string)
    requires KeyFits(key) && Fits(value)
    ensures SplitMapping(EntryText(key, value)) == Ok((key, value)) && EntryShape(EntryText(key, value))
  {
    KeySplits(key, [' '] + value);
    SplitValue(key, value);
    ValueHasShape(key, value);
  }

  lemma KeySplits(key: string, rest: string)
    requires KeyFits(key) && (rest == [] || rest[0] == ' ')
    ensures SplitsAt(key, rest)
  {
  }

  lemma ValueHasShape(key: string, value: string)
    requires Fits(key) && !StartsItem(key) && key[0] != '#' && Fits(value)
    ensures EntryShape(EntryText(key, value))
  {
    var rest := [' '] + value;
    assert rest[|rest| - 1] == value[|value| - 1];
    OneLineJoined([' '], value);
    EntryHasShape(key, rest);
  }

  lemma SplitValue(key: string, value: string)
    requires SplitsAt(key, [' '] + value) && Solid(value)
    ensures SplitMapping(EntryText(key, value)) == Ok((key, value))
  {
    StripAfterBlank(value);
  }

  lemma EntryHasShape(key: string, rest: string)
    requires Solid(key) && OneLine(key) && !StartsItem(key) && key[0] != '#'
    requires rest == [] || (OneLine(rest) && !IsSpace(rest[|rest| - 1]))
    ensures EntryShape(key + ":" + rest)
  {
    var s := key + ":" + rest;
    assert s[|key|] == ':' && s[0] == key[0] && (|key| > 1 ==> s[1] == key[1]);
    assert s[|s| - 1] == if rest == [] then ':' else rest[|rest| - 1];
    OneLineJoined(key, ":" + rest);
    assert s == key + (":" + rest);
  }

  lemma OneLineJoined(a: string, b: string)
    requires OneLine(a) && OneLine(b)
    ensures OneLine(a + b)
  {
  }

  lemma HeadingReads(key: string)
    requires KeyFits(key)
    ensures SplitMapping(key + ":") == Ok((key, [])) && EntryShape(key + ":")
  {
    assert SplitsAt(key, []);
    assert key + ":" + [] == key + ":";
    EntryHasShape(key, []);
  }
}
