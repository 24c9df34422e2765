/**
 Rendering SQL by repeated replacement: `sql_literal` and `render_sql_variables` of
 scripts/controlled-copy-retention.py.

 Each variable is replaced over the whole text that the earlier ones produced.  A template is
 read here as characters and holes; the condition under which the repeated replacement is
 one simultaneous substitution, whatever the values and the order, is given exactly.
 */
module SqlRender {
  import opened Wrappers
  import opened Texts
  import opened Sequences

  type Variable = (string, string)

  const QUOTE: char := '\''
  const NUL: char := 0 as char

  /** Variable names: no quote, no colon, no NUL. */
  predicate IsName(n: string) {
    n != "" && QUOTE !in n && ':' !in n && NUL !in n
  }

  function Pattern(n: string): (p: string)
    ensures p != ""
  {
    ":'" + n + "'"
  }

  function Doubled(v: string): (s: string) {
    Replace(v, "'", "''")
  }

  function Literal(v: string): (s: string) {
    "'" + Doubled(v) + "'"
  }

  function Rendered(query: string, vars: seq<Variable>): (s: string) {
    if vars == [] then query
    else
      var last := vars[|vars| - 1];
      Replace(Rendered(query, vars[..|vars| - 1]), Pattern(last.0), Literal(last.1))
  }

  predicate Clean(vars: seq<Variable>) {
    forall i :: 0 <= i < |vars| ==> NUL !in vars[i].1
  }

  /** Lexing the literal gives the value, whatever follows, unless that is a quote. */
  ghost predicate ReadsAs(literal: string, value: string) {
    forall rest: string {:trigger LexLiteral(literal + rest)} ::
      rest == "" || rest[0] != QUOTE ==> LexLiteral(literal + rest) == Some((value, rest))
  }

  method SqlLiteral(value: string) returns (r: Result<string>)
    ensures r.Ok? <==> NUL !in value
    ensures r.Ok? ==> r.value == Literal(value)
    ensures r.Ok? ==> ReadsAs(r.value, value)
  {
    if NUL in value { return Refused("invalid character"); }
    forall rest: string | rest == "" || rest[0] != QUOTE
      ensures LexLiteral(Literal(value) + rest) == Some((value, rest))
    {
      LiteralReadsBack(value, rest);
    }
    return Ok("'" + Replace(value, "'", "''") + "'");
  }

  method RenderSqlVariables(query: string, vars: seq<Variable>) returns (r: Result<string>)
    ensures r == if Clean(vars) then Ok(Rendered(query, vars)) else Refused("invalid character")
  {
    var rendered := query;
    for i := 0 to |vars|
      invariant Clean(vars[..i]) && rendered == Rendered(query, vars[..i])
    {
      var literal := SqlLiteral(vars[i].1);
      if literal.Refused? { return Refused("invalid character"); }
      assert vars[..i + 1][..i] == vars[..i];
      rendered := Replace(rendered, Pattern(vars[i].0), literal.value);
      assert rendered == Rendered(query, vars[..i + 1]);
    }
    assert vars[..|vars|] == vars;
    return Ok(rendered);
  }

  // ---- Reading a literal back

  /** Lexing from after the opening quote: the value and what follows the literal. */
  function LexBody(s: string): (r: Option<(string, string)>) {
    if s == "" then None
    else if s[0] != QUOTE then
      var rest := LexBody(s[1..]);
      if rest.None? then None else Some(([s[0]] + rest.value.0, rest.value.1))
    else if |s| > 1 && s[1] == QUOTE then
      var rest := LexBody(s[2..]);
      if rest.None? then None else Some(([QUOTE] + rest.value.0, rest.value.1))
    else Some(("", s[1..]))
  }

  function LexLiteral(s: string): (r: Option<(string, string)>) {
    if s == "" || s[0] != QUOTE then None else LexBody(s[1..])
  }

  lemma DoubledStep(v: string)
    requires v != ""
    ensures Doubled(v) == (if v[0] == QUOTE then "''" else [v[0]]) + Doubled(v[1..])
  {
    assert "'" <= v <==> v[0] == QUOTE;
  }

  lemma {:induction false} LexDoubled(v: string, rest: string)
    requires rest == "" || rest[0] != QUOTE
    ensures LexBody(Doubled(v) + "'" + rest) == Some((v, rest))
  {
    var s := Doubled(v) + "'" + rest;
    if v == "" {
      assert s == "'" + rest;
    } else {
      LexDoubled(v[1..], rest);
      DoubledStep(v);
      var tail := Doubled(v[1..]) + "'" + rest;
      if v[0] == QUOTE {
        assert s == "''" + tail;
        assert s[2..] == tail && v == [QUOTE] + v[1..];
      } else {
        assert s == [v[0]] + tail;
        assert s[1..] == tail && v == [v[0]] + v[1..];
      }
    }
  }

  lemma {:induction false} LexRemainder(s: string)
    requires LexBody(s).Some?
    ensures LexBody(s).value.1 == "" || LexBody(s).value.1[0] != QUOTE
  {
    if s[0] != QUOTE { LexRemainder(s[1..]); }
    else if |s| > 1 && s[1] == QUOTE { LexRemainder(s[2..]); }
  }

  /** A literal reads back as its value exactly when no quote follows it. */
  lemma LiteralReadsBack(v: string, rest: string)
    ensures LexLiteral(Literal(v) + rest) == Some((v, rest)) <==> (rest == "" || rest[0] != QUOTE)
  {
    assert (Literal(v) + rest)[1..] == Doubled(v) + "'" + rest;
    if rest == "" || rest[0] != QUOTE {
      LexDoubled(v, rest);
    } else if LexLiteral(Literal(v) + rest).Some? {
      LexRemainder(Doubled(v) + "'" + rest);
    }
  }

  // ---- Templates as characters and holes

  datatype Piece = Char(c: char) | Hole(name: string) | Lit(name: string, value: string)

  function ShowPiece(p: Piece): (s: string)
    ensures s != ""
  {
    match p
    case Char(c) => [c]
    case Hole(n) => Pattern(n)
    case Lit(_, v) => Literal(v)
  }

  function Show(ps: seq<Piece>): (s: string) {
    if ps == [] then "" else ShowPiece(ps[0]) + Show(ps[1..])
  }

  function FindName(names: seq<string>, s: string): (r: Option<string>)
    ensures r.Some? ==> r.value in names && Pattern(r.value) <= s
    ensures r.None? ==> forall n :: n in names ==> !(Pattern(n) <= s)
  {
    if names == [] then None
    else if Pattern(names[0]) <= s then Some(names[0])
    else FindName(names[1..], s)
  }

  function Scan(t: string, names: seq<string>): (ps: seq<Piece>) {
    if t == "" then []
    else
      var n := FindName(names, t);
      if n.Some? then [Hole(n.value)] + Scan(t[|Pattern(n.value)|..], names)
      else [Char(t[0])] + Scan(t[1..], names)
  }

  ghost predicate Raw(ps: seq<Piece>, names: seq<string>) {
    forall i :: 0 <= i < |ps| ==> ps[i].Char? || (ps[i].Hole? && ps[i].name in names)
  }

  lemma {:induction false} ScanShows(t: string, names: seq<string>)
    ensures Show(Scan(t, names)) == t && Raw(Scan(t, names), names)
  {
    if t != "" {
      var n := FindName(names, t);
      if n.Some? {
        ScanShows(t[|Pattern(n.value)|..], names);
        assert t == Pattern(n.value) + t[|Pattern(n.value)|..];
      } else {
        ScanShows(t[1..], names);
      }
    }
  }

  /** Simultaneous substitution. */
  function FillPiece(p: Piece, vs: map<string, string>): (r: Piece) {
    if p.Hole? && p.name in vs then Lit(p.name, vs[p.name]) else p
  }

  function Fill(ps: seq<Piece>, vs: map<string, string>): (r: seq<Piece>)
    ensures |r| == |ps| && forall i :: 0 <= i < |ps| ==> r[i] == FillPiece(ps[i], vs)
  {
    seq(|ps|, i requires 0 <= i < |ps| => FillPiece(ps[i], vs))
  }

  // ---- One replacement step

  /** The first piece starts text that looks like a placeholder and is none. */
  predicate FakeHead(ps: seq<Piece>, m: string)
    requires ps != []
  {
    match ps[0]
    case Char(c) => c == ':' && "'" + m + "'" <= Show(ps[1..])
    case Hole(_) => false
    case Lit(_, v) => v != "" && v[|v| - 1] == ':' && m + "'" <= Show(ps[1..])
  }

  predicate Fake(ps: seq<Piece>, m: string) {
    ps != [] && (FakeHead(ps, m) || Fake(ps[1..], m))
  }

  lemma {:induction false} NoColonSkipped(s: string, rest: string, m: string, text: string)
    requires ':' !in s
    ensures Replace(s + rest, Pattern(m), text) == s + Replace(rest, Pattern(m), text)
  {
    if s == "" {
      assert s + rest == rest;
    } else {
      NoColonSkipped(s[1..], rest, m, text);
      assert (s + rest)[1..] == s[1..] + rest;
      assert Pattern(m)[0] == ':' && (s + rest)[0] == s[0];
    }
  }

  lemma ConsPrefix(c: char, p: string, s: string)
    ensures [c] + p <= [c] + s <==> p <= s
  {
    if [c] + p <= [c] + s { assert ([c] + p)[1..] == p && ([c] + s)[1..] == s; }
  }

  lemma {:induction false} SameName(m: string, n: string, rest: string)
    requires QUOTE !in m && QUOTE !in n
    ensures m + "'" <= n + "'" + rest <==> m == n
  {
    var p, s := m + "'", n + "'" + rest;
    assert p[0] == if m == "" then QUOTE else m[0];
    assert s[0] == if n == "" then QUOTE else n[0];
    if m != "" && n != "" && m[0] == n[0] {
      SameName(m[1..], n[1..], rest);
      assert p == [m[0]] + (m[1..] + "'") && s == [n[0]] + (n[1..] + "'" + rest);
      ConsPrefix(m[0], m[1..] + "'", n[1..] + "'" + rest);
      assert m == [m[0]] + m[1..] && n == [n[0]] + n[1..];
    }
  }

  lemma PatternsDiffer(n: string, m: string, rest: string)
    requires IsName(n) && IsName(m)
    ensures Pattern(m) <= Pattern(n) + rest <==> m == n
  {
    SameName(m, n, rest);
    assert Pattern(m) == [':'] + ([QUOTE] + (m + "'"));
    assert Pattern(n) + rest == [':'] + ([QUOTE] + (n + "'" + rest));
    ConsPrefix(':', [QUOTE] + (m + "'"), [QUOTE] + (n + "'" + rest));
    ConsPrefix(QUOTE, m + "'", n + "'" + rest);
  }

  lemma HoleSkipped(n: string, rest: string, m: string, text: string)
    requires IsName(n) && IsName(m) && n != m
    ensures Replace(Pattern(n) + rest, Pattern(m), text) == Pattern(n) + Replace(rest, Pattern(m), text)
  {
    PatternsDiffer(n, m, rest);
    var tail := "'" + n + "'";
    assert Pattern(n) == [':'] + tail;
    assert (Pattern(n) + rest)[1..] == tail + rest;
    NoColonSkipped(tail, rest, m, text);
  }

  lemma HoleReplaced(rest: string, m: string, text: string)
    ensures Replace(Pattern(m) + rest, Pattern(m), text) == text + Replace(rest, Pattern(m), text)
  {
    assert (Pattern(m) + rest)[|Pattern(m)|..] == rest;
  }

  /** A colon inside a literal starts a placeholder only if it is the last character of the
      value and the text after the literal goes on with the name. */
  lemma ColonInLiteral(v: string, rest: string, m: string)
    requires IsName(m) && v != "" && v[0] == ':'
    ensures Pattern(m) <= Doubled(v) + "'" + rest <==> |v| == 1 && m + "'" <= rest
  {
    DoubledStep(v);
    var tail := Doubled(v[1..]) + "'" + rest;
    assert Doubled(v) + "'" + rest == [':'] + tail;
    assert Pattern(m) == [':'] + ([QUOTE] + (m + "'"));
    ConsPrefix(':', [QUOTE] + (m + "'"), tail);
    if |v| == 1 {
      assert tail == [QUOTE] + rest;
      ConsPrefix(QUOTE, m + "'", rest);
    } else {
      DoubledStep(v[1..]);
      BodyStart(v[1..], rest, m);
    }
  }

  lemma BodyStart(v: string, rest: string, m: string)
    requires IsName(m) && v != ""
    ensures !([QUOTE] + (m + "'") <= Doubled(v) + "'" + rest)
  {
    DoubledStep(v);
    var s := Doubled(v) + "'" + rest;
    if v[0] == QUOTE {
      var after := Doubled(v[1..]) + "'" + rest;
      assert s == [QUOTE] + ([QUOTE] + after);
      ConsPrefix(QUOTE, m + "'", [QUOTE] + after);
      assert (m + "'")[0] == m[0] != QUOTE;
    } else {
      assert s[0] == v[0];
    }
  }

  predicate EndsInColon(v: string) { v != "" && v[|v| - 1] == ':' }

  /** Scanning a literal: passed over, unless its end starts a fake placeholder. */
  lemma {:induction false} LiteralPassed(v: string, rest: string, m: string, text: string)
    requires IsName(m) && !(EndsInColon(v) && m + "'" <= rest)
    ensures Replace(Doubled(v) + "'" + rest, Pattern(m), text) == Doubled(v) + "'" + Replace(rest, Pattern(m), text)
  {
    if v == "" {
      assert Doubled(v) + "'" + rest == "'" + rest;
      NoColonSkipped("'", rest, m, text);
    } else {
      LiteralPassed(v[1..], rest, m, text);
      LiteralStep(v, rest, m, text);
      DoubledStep(v);
    }
  }

  lemma {:induction false} LiteralHit(u: string, rest: string, m: string, text: string)
    requires IsName(m) && m + "'" <= rest
    ensures Replace(Doubled(u + ":") + "'" + rest, Pattern(m), text) ==
            Doubled(u) + (text + Replace(rest[|m| + 1..], Pattern(m), text))
  {
    var after := text + Replace(rest[|m| + 1..], Pattern(m), text);
    if u == "" {
      LiteralHitHere(rest, m, text);
      assert u + ":" == ":";
      assert Doubled(u) + after == after;
    } else {
      LiteralHit(u[1..], rest, m, text);
      assert (u + ":")[1..] == u[1..] + ":";
      LiteralStep(u + ":", rest, m, text);
      DoubledAppend(u, after);
    }
  }

  lemma DoubledAppend(u: string, after: string)
    requires u != ""
    ensures Doubled(u) + after == (if u[0] == QUOTE then "''" else [u[0]]) + (Doubled(u[1..]) + after)
  {
    DoubledStep(u);
  }

  lemma LiteralHitHere(rest: string, m: string, text: string)
    requires IsName(m) && m + "'" <= rest
    ensures Replace(Doubled(":") + "'" + rest, Pattern(m), text) == text + Replace(rest[|m| + 1..], Pattern(m), text)
  {
    var s := Doubled(":") + "'" + rest;
    ColonInLiteral(":", rest, m);
    DoubledStep(":");
    assert s == ":'" + rest;
    assert s[|Pattern(m)|..] == rest[|m| + 1..];
  }

  /** Scanning passes the first character of a value unless a placeholder starts there. */
  lemma LiteralStep(v: string, rest: string, m: string, text: string)
    requires IsName(m) && v != "" && !(|v| == 1 && EndsInColon(v) && m + "'" <= rest)
    ensures Replace(Doubled(v) + "'" + rest, Pattern(m), text) ==
            (if v[0] == QUOTE then "''" else [v[0]]) + Replace(Doubled(v[1..]) + "'" + rest, Pattern(m), text)
  {
    var s, tail := Doubled(v) + "'" + rest, Doubled(v[1..]) + "'" + rest;
    DoubledStep(v);
    if v[0] == ':' {
      ColonInLiteral(v, rest, m);
      assert s == [':'] + tail && s[1..] == tail;
    } else {
      var first := if v[0] == QUOTE then "''" else [v[0]];
      assert s == first + tail;
      NoColonSkipped(first, tail, m, text);
    }
  }

  // ---- A replacement step is the substitution exactly when nothing looks like a placeholder

  /** Names of holes and literals are names. */
  ghost predicate Named(ps: seq<Piece>) {
    forall i :: 0 <= i < |ps| ==> ps[i].Char? || IsName(ps[i].name)
  }

  function Put(ps: seq<Piece>, m: string, v: string): (r: seq<Piece>) {
    Fill(ps, map[m := v])
  }

  lemma PutTail(ps: seq<Piece>, m: string, v: string)
    requires ps != []
    ensures Put(ps, m, v)[1..] == Put(ps[1..], m, v)
    ensures Show(Put(ps, m, v)) == ShowPiece(FillPiece(ps[0], map[m := v])) + Show(Put(ps[1..], m, v))
  {
  }

  lemma Cancel(p: string, a: string, b: string)
    ensures p + a == p + b <==> a == b
  {
    if p + a == p + b {
      assert (p + a)[|p|..] == a && (p + b)[|p|..] == b;
    }
  }

  lemma {:induction false} StepExact(ps: seq<Piece>, m: string, v: string)
    requires IsName(m) && Named(ps)
    ensures Replace(Show(ps), Pattern(m), Literal(v)) == Show(Put(ps, m, v)) <==> !Fake(ps, m)
  {
    if ps != [] {
      var rest := Show(ps[1..]);
      var replaced, filled := Replace(rest, Pattern(m), Literal(v)), Show(Put(ps[1..], m, v));
      StepExact(ps[1..], m, v);
      PutTail(ps, m, v);
      match ps[0]
      case Char(c) =>
        CharStep(c, rest, m, Literal(v), filled);
        Cancel([c], replaced, filled);
      case Hole(n) =>
        if n == m {
          HoleReplaced(rest, m, Literal(v));
          Cancel(Literal(v), replaced, filled);
        } else {
          HoleSkipped(n, rest, m, Literal(v));
          Cancel(Pattern(n), replaced, filled);
        }
      case Lit(_, u) =>
        LitStep(u, rest, m, v, filled);
    }
  }

  lemma CharStep(c: char, rest: string, m: string, text: string, filled: string)
    requires text != "" && text[0] == QUOTE
    ensures c == ':' && "'" + m + "'" <= rest ==> Replace([c] + rest, Pattern(m), text) != [c] + filled
    ensures !(c == ':' && "'" + m + "'" <= rest) ==>
              Replace([c] + rest, Pattern(m), text) == [c] + Replace(rest, Pattern(m), text)
  {
    assert Pattern(m) == [':'] + ("'" + m + "'");
    var s := [c] + rest;
    assert s[1..] == rest;
    if c == ':' {
      ConsPrefix(':', "'" + m + "'", rest);
      if "'" + m + "'" <= rest {
        assert (text + Replace(s[|Pattern(m)|..], Pattern(m), text))[0] == QUOTE;
        assert ([c] + filled)[0] == ':';
      }
    }
  }

  lemma LitStep(u: string, rest: string, m: string, v: string, filled: string)
    requires IsName(m)
    ensures var hit := EndsInColon(u) && m + "'" <= rest;
            Replace(Literal(u) + rest, Pattern(m), Literal(v)) == Literal(u) + filled <==>
            !hit && Replace(rest, Pattern(m), Literal(v)) == filled
  {
    var body := Doubled(u) + "'" + rest;
    LiteralOpens(u, rest);
    LiteralOpens(u, filled);
    NoColonSkipped("'", body, m, Literal(v));
    Cancel("'", Replace(body, Pattern(m), Literal(v)), Doubled(u) + "'" + filled);
    if EndsInColon(u) && m + "'" <= rest {
      assert u == u[..|u| - 1] + ":";
      LiteralHit(u[..|u| - 1], rest, m, Literal(v));
      LitDiffers(u, Literal(v), Replace(rest[|m| + 1..], Pattern(m), Literal(v)), filled);
    } else {
      LiteralPassed(u, rest, m, Literal(v));
      Cancel(Doubled(u) + "'", Replace(rest, Pattern(m), Literal(v)), filled);
    }
  }

  lemma LiteralOpens(u: string, rest: string)
    ensures Literal(u) + rest == "'" + (Doubled(u) + "'" + rest)
  {
  }

  lemma LitDiffers(u: string, text: string, after: string, filled: string)
    requires EndsInColon(u) && text != "" && text[0] == QUOTE
    ensures Doubled(u[..|u| - 1]) + (text + after) != Doubled(u) + "'" + filled
  {
    var p := Doubled(u[..|u| - 1]);
    DoubledEnd(u);
    assert Doubled(u) + "'" + filled == p + (":'" + filled);
    Cancel(p, text + after, ":'" + filled);
    assert (text + after)[0] == QUOTE;
    assert (":'" + filled)[0] == ':';
  }

  lemma {:induction false} DoubledEnd(u: string)
    requires EndsInColon(u)
    ensures Doubled(u) == Doubled(u[..|u| - 1]) + ":"
  {
    DoubledStep(u);
    if |u| == 1 {
      assert u[1..] == "" && u[..0] == "";
    } else {
      DoubledEnd(u[1..]);
      DoubledStep(u[..|u| - 1]);
      assert u[..|u| - 1][1..] == u[1..][..|u| - 2];
    }
  }

  // ---- Which templates can be spoilt

  /** The pieces start with the characters of the name. */
  predicate Spells(ps: seq<Piece>, m: string) {
    |m| <= |ps| && forall j :: 0 <= j < |m| ==> ps[j] == Char(m[j])
  }

  /** A hole that is filled before `m` is. */
  predicate Gap(p: Piece, m: string) {
    p.Hole? && p.name != m
  }

  /** From its first piece on, the template can come to look like a placeholder for `m`:
      1. a colon before a hole; 2. an unfinished placeholder before a hole; 3. a hole before
      the rest of a placeholder, which a quote or another hole may finish. */
  predicate SpoilsHead(ps: seq<Piece>, m: string)
    requires ps != []
  {
    var rest := ps[1..];
    || (ps[0] == Char(':') && rest != [] && Gap(rest[0], m))
    || (ps[0] == Char(':') && rest != [] && rest[0] == Char(QUOTE) && Spells(rest[1..], m)
        && |m| + 1 < |rest| && Gap(rest[|m| + 1], m))
    || (Gap(ps[0], m) && Spells(rest, m) && |m| < |rest| && (rest[|m|] == Char(QUOTE) || Gap(rest[|m|], m)))
  }

  predicate Spoiled(ps: seq<Piece>, m: string) {
    ps != [] && (SpoilsHead(ps, m) || Spoiled(ps[1..], m))
  }

  /** No variable's placeholder can be imitated by the text around another one. */
  predicate Clear(t: string, names: seq<string>) {
    forall i :: 0 <= i < |names| ==> !Spoiled(Scan(t, names), names[i])
  }

  lemma FillTail(ps: seq<Piece>, vs: map<string, string>)
    requires ps != []
    ensures Fill(ps, vs)[1..] == Fill(ps[1..], vs)
    ensures Show(Fill(ps, vs)) == ShowPiece(FillPiece(ps[0], vs)) + Show(Fill(ps[1..], vs))
  {
  }

  /** The piece shows a quote first. */
  predicate Closes(p: Piece, vs: map<string, string>) {
    p == Char(QUOTE) || (p.Hole? && p.name in vs)
  }

  predicate Plain(ps: seq<Piece>) {
    forall i :: 0 <= i < |ps| ==> !ps[i].Lit?
  }

  lemma QuoteShown(ps: seq<Piece>, vs: map<string, string>)
    requires Plain(ps)
    ensures "'" <= Show(Fill(ps, vs)) <==> ps != [] && Closes(ps[0], vs)
  {
    if ps != [] {
      FillTail(ps, vs);
      var first, rest := ShowPiece(FillPiece(ps[0], vs)), Show(Fill(ps[1..], vs));
      assert (first + rest)[0] == first[0];
      assert "'" <= first + rest <==> (first + rest)[0] == QUOTE;
    }
  }

  lemma SpellsNext(ps: seq<Piece>, m: string)
    requires m != "" && ps != [] && ps[0] == Char(m[0])
    ensures Spells(ps, m) <==> Spells(ps[1..], m[1..])
  {
    if Spells(ps[1..], m[1..]) {
      forall j | 0 < j < |m| ensures ps[j] == Char(m[j]) { assert ps[1..][j - 1] == Char(m[1..][j - 1]); }
    }
  }

  lemma FirstShown(p: Piece, vs: map<string, string>, c: char)
    requires !p.Lit? && c != QUOTE && c != ':'
    ensures ShowPiece(FillPiece(p, vs))[0] == c <==> p == Char(c)
  {
  }

  lemma {:induction false} NameShown(ps: seq<Piece>, vs: map<string, string>, m: string)
    requires Plain(ps) && QUOTE !in m && ':' !in m
    ensures m + "'" <= Show(Fill(ps, vs)) <==> Spells(ps, m) && |m| < |ps| && Closes(ps[|m|], vs)
  {
    if m == "" {
      assert m + "'" == "'";
      QuoteShown(ps, vs);
    } else if ps != [] {
      FillTail(ps, vs);
      var first, rest := ShowPiece(FillPiece(ps[0], vs)), Show(Fill(ps[1..], vs));
      assert (first + rest)[0] == first[0];
      assert m + "'" == [m[0]] + (m[1..] + "'");
      FirstShown(ps[0], vs, m[0]);
      if ps[0] == Char(m[0]) {
        NameShown(ps[1..], vs, m[1..]);
        ConsPrefix(m[0], m[1..] + "'", rest);
        SpellsNext(ps, m);
      }
    }
  }

  // ---- Clear templates stay clear

  lemma QuotedNameShown(ps: seq<Piece>, vs: map<string, string>, m: string)
    requires Plain(ps) && IsName(m) && ps != [] && ps[0] == Char(QUOTE)
    ensures "'" + m + "'" <= Show(Fill(ps, vs)) <==>
            Spells(ps[1..], m) && |m| + 1 < |ps| && Closes(ps[|m| + 1], vs)
  {
    FillTail(ps, vs);
    NameShown(ps[1..], vs, m);
    assert "'" + m + "'" == [QUOTE] + (m + "'");
    ConsPrefix(QUOTE, m + "'", Show(Fill(ps[1..], vs)));
  }

  lemma QuotedNeedsQuote(ps: seq<Piece>, vs: map<string, string>, m: string)
    requires Plain(ps) && "'" + m + "'" <= Show(Fill(ps, vs))
    ensures ps != [] && Closes(ps[0], vs)
  {
    QuoteShown(ps, vs);
    assert ("'" + m + "'")[0] == QUOTE;
  }

  lemma HeadStaysGenuine(ps: seq<Piece>, vs: map<string, string>, m: string)
    requires Plain(ps) && IsName(m) && m !in vs && ps != []
    requires !FakeHead(ps, m) && FakeHead(Fill(ps, vs), m)
    ensures SpoilsHead(ps, m)
  {
    var rest := ps[1..];
    FillTail(ps, vs);
    NothingFilled(rest);
    if ps[0] == Char(':') {
      QuotedNeedsQuote(rest, vs, m);
      if rest[0] == Char(QUOTE) {
        QuotedNameShown(rest, vs, m);
        QuotedNameShown(rest, map[], m);
      }
    } else {
      NameShown(rest, vs, m);
    }
  }

  lemma NothingFilled(ps: seq<Piece>)
    ensures Fill(ps, map[]) == ps
  {
  }

  lemma {:induction false} StaysGenuine(ps: seq<Piece>, vs: map<string, string>, m: string)
    requires Plain(ps) && IsName(m) && m !in vs
    requires !Fake(ps, m) && !Spoiled(ps, m)
    ensures !Fake(Fill(ps, vs), m)
  {
    if ps != [] {
      FillTail(ps, vs);
      StaysGenuine(ps[1..], vs, m);
      if FakeHead(Fill(ps, vs), m) { HeadStaysGenuine(ps, vs, m); }
    }
  }

  lemma {:induction false} ScanGenuine(t: string, names: seq<string>, m: string)
    requires m in names
    ensures !Fake(Scan(t, names), m)
  {
    if t != "" {
      var n := FindName(names, t);
      var ps := Scan(t, names);
      if n.Some? {
        ScanGenuine(t[|Pattern(n.value)|..], names, m);
        assert ps[1..] == Scan(t[|Pattern(n.value)|..], names);
      } else {
        ScanGenuine(t[1..], names, m);
        ScanShows(t[1..], names);
        assert ps[1..] == Scan(t[1..], names);
        NoPlaceholder(t, m);
      }
    }
  }

  lemma NoPlaceholder(t: string, m: string)
    requires t != "" && !(Pattern(m) <= t)
    ensures !(t[0] == ':' && "'" + m + "'" <= t[1..])
  {
    assert Pattern(m) == [':'] + ("'" + m + "'") && t == [t[0]] + t[1..];
    ConsPrefix(':', "'" + m + "'", t[1..]);
  }

  // ---- Counting colons

  function Colons(s: string): (n: nat) {
    if s == "" then 0 else (if s[0] == ':' then 1 else 0) + Colons(s[1..])
  }

  lemma {:induction false} NoColons(s: string)
    requires ':' !in s
    ensures Colons(s) == 0
  {
    if s != "" { NoColons(s[1..]); }
  }

  lemma {:induction false} ColonsOfBoth(a: string, b: string)
    ensures Colons(a + b) == Colons(a) + Colons(b)
  {
    if a == "" {
      assert a + b == b;
    } else {
      ColonsOfBoth(a[1..], b);
      assert (a + b)[1..] == a[1..] + b;
    }
  }

  lemma {:induction false} ColonsOfDoubled(v: string)
    ensures Colons(Doubled(v)) == Colons(v)
  {
    if v != "" {
      DoubledStep(v);
      ColonsOfDoubled(v[1..]);
      NoColons("''");
      ColonsOfBoth(if v[0] == QUOTE then "''" else [v[0]], Doubled(v[1..]));
    }
  }

  lemma ColonsOfLiteral(v: string)
    ensures Colons(Literal(v)) == Colons(v)
  {
    ColonsOfDoubled(v);
    NoColons("'");
    ColonsOfBoth("'", Doubled(v));
    ColonsOfBoth("'" + Doubled(v), "'");
  }

  /** The number of positions at which a placeholder for `m` stands. */
  function Hits(s: string, m: string): (n: nat) {
    if s == "" then 0 else (if Pattern(m) <= s then 1 else 0) + Hits(s[1..], m)
  }

  lemma {:induction false} NoHitsWithoutColon(a: string, rest: string, m: string)
    requires ':' !in a
    ensures Hits(a + rest, m) == Hits(rest, m)
  {
    if a == "" {
      assert a + rest == rest;
    } else {
      NoHitsWithoutColon(a[1..], rest, m);
      assert (a + rest)[1..] == a[1..] + rest;
      assert Pattern(m)[0] == ':' && (a + rest)[0] == a[0];
    }
  }

  lemma HitsAtHole(n: string, rest: string, m: string)
    requires IsName(n) && IsName(m)
    ensures Hits(Pattern(n) + rest, m) == (if n == m then 1 else 0) + Hits(rest, m)
  {
    PatternsDiffer(n, m, rest);
    var tail := "'" + n + "'";
    assert Pattern(n) == [':'] + tail;
    assert (Pattern(n) + rest)[1..] == tail + rest;
    NoHitsWithoutColon(tail, rest, m);
  }

  lemma {:induction false} HitsInLiteral(v: string, rest: string, m: string)
    requires IsName(m)
    ensures Hits(Doubled(v) + "'" + rest, m) == (if EndsInColon(v) && m + "'" <= rest then 1 else 0) + Hits(rest, m)
  {
    if v == "" {
      assert Doubled(v) + "'" + rest == "'" + rest;
      NoHitsWithoutColon("'", rest, m);
    } else {
      HitsInLiteral(v[1..], rest, m);
      HitsStep(v, rest, m);
      assert |v| > 1 ==> EndsInColon(v) == EndsInColon(v[1..]);
    }
  }

  lemma HitsStep(v: string, rest: string, m: string)
    requires IsName(m) && v != ""
    ensures Hits(Doubled(v) + "'" + rest, m) ==
            (if v == ":" && m + "'" <= rest then 1 else 0) + Hits(Doubled(v[1..]) + "'" + rest, m)
  {
    var tail := Doubled(v[1..]) + "'" + rest;
    var first := if v[0] == QUOTE then "''" else [v[0]];
    DoubledStep(v);
    assert Doubled(v) + "'" + rest == first + tail;
    if v[0] == ':' {
      ColonInLiteral(v, rest, m);
      HitsAfterColon(tail, m);
      assert v == ":" <==> |v| == 1;
    } else {
      NoHitsWithoutColon(first, tail, m);
    }
  }

  lemma HitsAfterColon(tail: string, m: string)
    ensures Hits([':'] + tail, m) == (if Pattern(m) <= [':'] + tail then 1 else 0) + Hits(tail, m)
  {
    assert ([':'] + tail)[1..] == tail;
  }

  lemma HitsAtLiteral(v: string, rest: string, m: string)
    requires IsName(m)
    ensures Hits(Literal(v) + rest, m) == (if EndsInColon(v) && m + "'" <= rest then 1 else 0) + Hits(rest, m)
  {
    LiteralOpens(v, rest);
    NoHitsWithoutColon("'", Doubled(v) + "'" + rest, m);
    HitsInLiteral(v, rest, m);
  }

  lemma HitsAtChar(c: char, rest: string, m: string)
    ensures Hits([c] + rest, m) == (if c == ':' && "'" + m + "'" <= rest then 1 else 0) + Hits(rest, m)
  {
    var s := [c] + rest;
    assert s[1..] == rest && Pattern(m) == [':'] + ("'" + m + "'");
    if c == ':' { ConsPrefix(':', "'" + m + "'", rest); } else { assert Pattern(m)[0] != s[0]; }
  }

  function Holes(ps: seq<Piece>, m: string): (n: nat) {
    if ps == [] then 0 else (if ps[0] == Hole(m) then 1 else 0) + Holes(ps[1..], m)
  }

  function Fakes(ps: seq<Piece>, m: string): (n: nat) {
    if ps == [] then 0 else (if FakeHead(ps, m) then 1 else 0) + Fakes(ps[1..], m)
  }

  /** Every placeholder in the text is a hole or a fake. */
  lemma {:induction false} HitsAreHolesAndFakes(ps: seq<Piece>, m: string)
    requires IsName(m) && Named(ps)
    ensures Hits(Show(ps), m) == Holes(ps, m) + Fakes(ps, m)
  {
    if ps != [] {
      HitsAreHolesAndFakes(ps[1..], m);
      var rest := Show(ps[1..]);
      match ps[0]
      case Char(c) => HitsAtChar(c, rest, m);
      case Hole(n) => HitsAtHole(n, rest, m);
      case Lit(_, v) => HitsAtLiteral(v, rest, m);
    }
  }

  lemma {:induction false} FakesCounted(ps: seq<Piece>, m: string)
    ensures Fake(ps, m) <==> Fakes(ps, m) > 0
  {
    if ps != [] { FakesCounted(ps[1..], m); }
  }

  lemma {:induction false} HolesStay(ps: seq<Piece>, vs: map<string, string>, m: string)
    requires m !in vs
    ensures Holes(Fill(ps, vs), m) == Holes(ps, m)
  {
    if ps != [] {
      FillTail(ps, vs);
      HolesStay(ps[1..], vs, m);
    }
  }

  /** One replacement changes the number of colons by those of its literals. */
  lemma {:induction false} ColonsAfterReplace(s: string, m: string, v: string)
    requires IsName(m)
    ensures Colons(Replace(s, Pattern(m), Literal(v))) == Colons(s) + Hits(s, m) * (Colons(v) - 1)
  {
    if s != "" {
      if Pattern(m) <= s {
        var rest := s[|Pattern(m)|..];
        assert s == Pattern(m) + rest;
        ColonsAfterReplace(rest, m, v);
        ColonsOfBoth(Literal(v), Replace(rest, Pattern(m), Literal(v)));
        ColonsOfLiteral(v);
        HitsAtHole(m, rest, m);
        ColonsOfPattern(m);
        ColonsOfBoth(Pattern(m), rest);
        OneMoreHit(Hits(rest, m), Colons(v) - 1);
      } else {
        ColonsAfterReplace(s[1..], m, v);
        ColonsOfBoth([s[0]], Replace(s[1..], Pattern(m), Literal(v)));
      }
    }
  }

  lemma ColonsOfPattern(m: string)
    requires IsName(m)
    ensures Colons(Pattern(m)) == 1
  {
    NoColons("'" + m + "'");
    assert Pattern(m)[1..] == "'" + m + "'";
  }

  lemma OneMoreHit(n: nat, c: int)
    ensures (1 + n) * c == c + n * c
  {
  }

  // ---- Spoilt templates can be made to fail

  /** The values that make the text look like a placeholder for `m`. */
  lemma HeadSpoilt(ps: seq<Piece>, names: seq<string>, m: string) returns (k: string, l: string, v: string)
    requires Raw(ps, names) && IsName(m) && ps != [] && SpoilsHead(ps, m)
    ensures k in names && l in names && k != m && l != m && NUL !in v && Colons(v) <= 1
    ensures FakeHead(Fill(ps, map[k := v, l := v]), m)
  {
    var rest := ps[1..];
    if ps[0] == Char(':') && Gap(rest[0], m) {
      k, l, v := rest[0].name, rest[0].name, m;
      var vs := map[k := v, l := v];
      FillTail(ps, vs);
      FillTail(rest, vs);
      DoubledName(m);
      NoColons(m);
    } else if ps[0] == Char(':') {
      k, l, v := rest[|m| + 1].name, rest[|m| + 1].name, "";
      FillTail(ps, map[k := v, l := v]);
      QuotedNameShown(rest, map[k := v, l := v], m);
    } else {
      k, v := ps[0].name, ":";
      l := if rest[|m|].Hole? then rest[|m|].name else k;
      FillTail(ps, map[k := v, l := v]);
      NameShown(rest, map[k := v, l := v], m);
    }
  }

  lemma {:induction false} DoubledName(m: string)
    requires QUOTE !in m
    ensures Doubled(m) == m
  {
    if m != "" {
      DoubledStep(m);
      DoubledName(m[1..]);
    }
  }

  lemma {:induction false} CanBeSpoilt(ps: seq<Piece>, names: seq<string>, m: string)
    returns (k: string, l: string, v: string)
    requires Raw(ps, names) && IsName(m) && Spoiled(ps, m)
    ensures k in names && l in names && k != m && l != m && NUL !in v && Colons(v) <= 1
    ensures Fake(Fill(ps, map[k := v, l := v]), m)
  {
    if SpoilsHead(ps, m) {
      k, l, v := HeadSpoilt(ps, names, m);
    } else {
      k, l, v := CanBeSpoilt(ps[1..], names, m);
      FillTail(ps, map[k := v, l := v]);
    }
  }

  // ---- Whole renderings

  function Bindings(vars: seq<Variable>): (m: map<string, string>) {
    if vars == [] then map[] else Bindings(vars[..|vars| - 1])[vars[|vars| - 1].0 := vars[|vars| - 1].1]
  }

  /** Distinct variables among the given names, in any order, with any permitted values. */
  ghost predicate Drawn(vars: seq<Variable>, names: seq<string>) {
    && Clean(vars)
    && (forall i :: 0 <= i < |vars| ==> vars[i].0 in names)
    && (forall i, j :: 0 <= i < j < |vars| ==> vars[i].0 != vars[j].0)
  }

  /** Each variable's placeholders replaced at the same time. */
  function Simultaneous(t: string, names: seq<string>, vars: seq<Variable>): (s: string) {
    Show(Fill(Scan(t, names), Bindings(vars)))
  }

  ghost predicate AllNames(names: seq<string>) {
    forall n :: n in names ==> IsName(n)
  }

  lemma {:induction false} BindingsKeys(vars: seq<Variable>)
    ensures forall n :: n in Bindings(vars) <==> exists i :: 0 <= i < |vars| && vars[i].0 == n
  {
    if vars != [] {
      var k := |vars| - 1;
      BindingsKeys(vars[..k]);
      assert forall i :: 0 <= i < k ==> vars[..k][i] == vars[i];
    }
  }

  lemma FillThenPut(ps: seq<Piece>, vs: map<string, string>, m: string, v: string)
    requires m !in vs
    ensures Put(Fill(ps, vs), m, v) == Fill(ps, vs[m := v])
  {
  }

  lemma FilledNamed(t: string, names: seq<string>, vs: map<string, string>)
    requires AllNames(names)
    ensures Named(Fill(Scan(t, names), vs)) && Plain(Scan(t, names))
  {
    ScanShows(t, names);
  }

  /** After one more variable, the text is still the simultaneous substitution exactly when
      nothing imitated its placeholder. */
  lemma NextVariable(t: string, names: seq<string>, vars: seq<Variable>)
    requires AllNames(names) && Drawn(vars, names) && vars != []
    requires Rendered(t, vars[..|vars| - 1]) == Simultaneous(t, names, vars[..|vars| - 1])
    ensures Rendered(t, vars) == Simultaneous(t, names, vars) <==>
            !Fake(Fill(Scan(t, names), Bindings(vars[..|vars| - 1])), vars[|vars| - 1].0)
    ensures vars[|vars| - 1].0 !in Bindings(vars[..|vars| - 1])
  {
    var before, last := vars[..|vars| - 1], vars[|vars| - 1];
    BindingsKeys(before);
    FilledNamed(t, names, Bindings(before));
    StepExact(Fill(Scan(t, names), Bindings(before)), last.0, last.1);
    FillThenPut(Scan(t, names), Bindings(before), last.0, last.1);
  }

  lemma {:induction false} ClearIsSimultaneous(t: string, names: seq<string>, vars: seq<Variable>)
    requires AllNames(names) && Drawn(vars, names) && Clear(t, names)
    ensures Rendered(t, vars) == Simultaneous(t, names, vars)
  {
    if vars == [] {
      ScanShows(t, names);
      NothingFilled(Scan(t, names));
    } else {
      var before, m := vars[..|vars| - 1], vars[|vars| - 1].0;
      ClearIsSimultaneous(t, names, before);
      NextVariable(t, names, vars);
      FilledNamed(t, names, Bindings(before));
      ScanGenuine(t, names, m);
      StaysGenuine(Scan(t, names), Bindings(before), m);
    }
  }

  ghost predicate AlwaysSimultaneous(t: string, names: seq<string>) {
    forall vars: seq<Variable> :: Drawn(vars, names) ==> Rendered(t, vars) == Simultaneous(t, names, vars)
  }

  /** An imitable placeholder has a run of at most three variables that shows it. */
  lemma SpoiltFails(t: string, names: seq<string>, m: string)
    requires AllNames(names) && m in names && Spoiled(Scan(t, names), m)
    ensures !AlwaysSimultaneous(t, names)
  {
    ScanShows(t, names);
    var k, l, v := CanBeSpoilt(Scan(t, names), names, m);
    var before := Pair(k, l, v);
    PairBindings(k, l, v);
    PairDrawn(k, l, v, m, names);
    if AlwaysSimultaneous(t, names) {
      assert (before + [(m, "")])[..|before|] == before;
      NextVariable(t, names, before + [(m, "")]);
      assert false;
    }
  }

  function Pair(k: string, l: string, v: string): (vars: seq<Variable>) {
    if k == l then [(k, v)] else [(k, v), (l, v)]
  }

  lemma PairDrawn(k: string, l: string, v: string, m: string, names: seq<string>)
    requires k in names && l in names && m in names && k != m && l != m && NUL !in v
    ensures Drawn(Pair(k, l, v), names) && Drawn(Pair(k, l, v) + [(m, "")], names)
  {
  }

  lemma PairBindings(k: string, l: string, v: string)
    ensures Bindings(Pair(k, l, v)) == map[k := v, l := v]
  {
    var one: seq<Variable>, two: seq<Variable> := [(k, v)], [(k, v), (l, v)];
    assert one[..0] == [] && two[..1] == one;
    assert Bindings(one) == map[k := v];
    assert Bindings(two) == map[k := v][l := v];
  }

  /** Replacing variable by variable is one simultaneous substitution, for all values and
      orders of the variables, exactly for the clear templates. */
  lemma SimultaneousIffClear(t: string, names: seq<string>)
    requires AllNames(names)
    ensures AlwaysSimultaneous(t, names) <==> Clear(t, names)
  {
    if Clear(t, names) {
      forall vars: seq<Variable> | Drawn(vars, names) ensures Rendered(t, vars) == Simultaneous(t, names, vars) {
        ClearIsSimultaneous(t, names, vars);
      }
    } else {
      var i :| 0 <= i < |names| && Spoiled(Scan(t, names), names[i]);
      SpoiltFails(t, names, names[i]);
    }
  }

  lemma {:induction false} BindingsValues(vars: seq<Variable>, names: seq<string>)
    requires Drawn(vars, names)
    ensures forall n, v :: n in Bindings(vars) && Bindings(vars)[n] == v <==> (n, v) in vars
  {
    if vars != [] {
      var before, last := vars[..|vars| - 1], vars[|vars| - 1];
      BindingsValues(before, names);
      BindingsKeys(before);
      assert vars == before + [last];
      forall n, v ensures n in Bindings(vars) && Bindings(vars)[n] == v <==> (n, v) in vars {
        assert (n, v) in vars <==> (n, v) in before || (n, v) == last;
        if n == last.0 { assert n !in Bindings(before); }
      }
    }
  }

  /** Over a clear template the order of the variables does not matter. */
  lemma VariableOrderIrrelevant(t: string, names: seq<string>, vars: seq<Variable>, others: seq<Variable>)
    requires AllNames(names) && Clear(t, names)
    requires Drawn(vars, names) && Drawn(others, names) && multiset(vars) == multiset(others)
    ensures Rendered(t, vars) == Rendered(t, others)
  {
    ClearIsSimultaneous(t, names, vars);
    ClearIsSimultaneous(t, names, others);
    BindingsValues(vars, names);
    BindingsValues(others, names);
    PermutationMembers(vars, others);
    var a, b := Bindings(vars), Bindings(others);
    forall n ensures n in a <==> n in b {
      if n in a { assert (n, a[n]) in others; }
      if n in b { assert (n, b[n]) in vars; }
    }
    forall n | n in a ensures a[n] == b[n] { assert (n, a[n]) in others; }
    assert a == b;
  }

  ghost predicate OrderIrrelevant(t: string, names: seq<string>) {
    forall vars: seq<Variable>, others: seq<Variable> ::
      Drawn(vars, names) && Drawn(others, names) && multiset(vars) == multiset(others) ==>
      Rendered(t, vars) == Rendered(t, others)
  }

  /** After these variables, rendered exactly, something imitates a placeholder for `n`. */
  ghost predicate Imitates(t: string, names: seq<string>, before: seq<Variable>, n: string) {
    && n in names && Drawn(before, names) && n !in Bindings(before)
    && (forall i :: 0 <= i < |before| ==> before[i].0 != n && Colons(before[i].1) <= 1)
    && Rendered(t, before) == Simultaneous(t, names, before)
    && Fake(Fill(Scan(t, names), Bindings(before)), n)
  }

  /** A template that is not clear has variables that are rendered exactly, one or two of them,
      and after which another variable's placeholder is imitated. */
  lemma SpoiltPrefix(t: string, names: seq<string>, m: string) returns (before: seq<Variable>, n: string)
    requires AllNames(names) && m in names && Spoiled(Scan(t, names), m)
    ensures Imitates(t, names, before, n)
  {
    ScanShows(t, names);
    var k, l, v := CanBeSpoilt(Scan(t, names), names, m);
    var one: seq<Variable> := [(k, v)];
    assert one[..0] == [] && Drawn(one, names);
    PairBindings(k, k, v);
    NothingFilled(Scan(t, names));
    ScanGenuine(t, names, k);
    NextVariable(t, names, one);
    if k == l {
      before, n := one, m;
    } else {
      before, n := SpoiltPair(t, names, m, k, l, v);
    }
  }

  lemma SpoiltPair(t: string, names: seq<string>, m: string, k: string, l: string, v: string)
    returns (before: seq<Variable>, n: string)
    requires AllNames(names) && m in names && k in names && l in names && k != l && k != m && l != m
    requires NUL !in v && Colons(v) <= 1 && Rendered(t, [(k, v)]) == Simultaneous(t, names, [(k, v)])
    requires Fake(Fill(Scan(t, names), map[k := v, l := v]), m)
    ensures Imitates(t, names, before, n)
  {
    var one: seq<Variable> := [(k, v)];
    if Fake(Fill(Scan(t, names), Bindings(one)), l) {
      before, n := one, l;
      OneImitates(t, names, k, l, v);
    } else {
      before, n := [(k, v), (l, v)], m;
      TwoImitate(t, names, m, k, l, v);
    }
  }

  lemma OneImitates(t: string, names: seq<string>, k: string, l: string, v: string)
    requires k in names && l in names && k != l && NUL !in v && Colons(v) <= 1
    requires Rendered(t, [(k, v)]) == Simultaneous(t, names, [(k, v)])
    requires Fake(Fill(Scan(t, names), Bindings([(k, v)])), l)
    ensures Imitates(t, names, [(k, v)], l)
  {
    var one: seq<Variable> := [(k, v)];
    PairBindings(k, k, v);
    assert Drawn(one, names);
  }

  lemma TwoImitate(t: string, names: seq<string>, m: string, k: string, l: string, v: string)
    requires AllNames(names) && m in names && k in names && l in names && k != l && k != m && l != m
    requires NUL !in v && Colons(v) <= 1 && Rendered(t, [(k, v)]) == Simultaneous(t, names, [(k, v)])
    requires !Fake(Fill(Scan(t, names), Bindings([(k, v)])), l)
    requires Fake(Fill(Scan(t, names), map[k := v, l := v]), m)
    ensures Imitates(t, names, [(k, v), (l, v)], m)
  {
    var two: seq<Variable> := [(k, v), (l, v)];
    PairBindings(k, l, v);
    PairRendered(t, names, k, l, v);
    assert Drawn(two, names);
  }

  lemma PairRendered(t: string, names: seq<string>, k: string, l: string, v: string)
    requires AllNames(names) && k in names && l in names && k != l && NUL !in v
    requires Rendered(t, [(k, v)]) == Simultaneous(t, names, [(k, v)])
    requires !Fake(Fill(Scan(t, names), Bindings([(k, v)])), l)
    ensures Rendered(t, [(k, v), (l, v)]) == Simultaneous(t, names, [(k, v), (l, v)])
  {
    var two: seq<Variable> := [(k, v), (l, v)];
    assert two[..1] == [(k, v)];
    NextVariable(t, names, two);
  }

  lemma {:induction false} ColonsNeverGrow(t: string, first: Variable, before: seq<Variable>)
    requires forall i :: 0 <= i < |before| ==> IsName(before[i].0) && Colons(before[i].1) <= 1
    ensures Colons(Rendered(t, [first] + before)) <= Colons(Rendered(t, [first]))
  {
    if before == [] {
      assert [first] + before == [first];
    } else {
      var shorter, last := before[..|before| - 1], before[|before| - 1];
      ColonsNeverGrow(t, first, shorter);
      assert ([first] + before)[..|before|] == [first] + shorter;
      var middle := Rendered(t, [first] + shorter);
      ColonsAfterReplace(middle, last.0, last.1);
      NotMore(Hits(middle, last.0), Colons(last.1) - 1);
    }
  }

  lemma NotMore(n: nat, c: int)
    requires c <= 0
    ensures n * c <= 0
  {
  }

  function ColonsOnly(n: nat): (s: string)
    ensures Colons(s) == n && NUL !in s
  {
    if n == 0 then "" else [':'] + ColonsOnly(n - 1)
  }

  /** Filling an imitated placeholder last inserts one literal more than filling it first. */
  lemma OrdersDiffer(t: string, names: seq<string>, before: seq<Variable>, n: string, w: string)
    requires AllNames(names) && Imitates(t, names, before, n) && Colons(w) == Colons(t) + 2
    ensures Rendered(t, before + [(n, w)]) != Rendered(t, [(n, w)] + before)
  {
    MoreHits(t, names, Bindings(before), n);
    CountsDiffer(t, before, n, w);
  }

  lemma CountsDiffer(t: string, before: seq<Variable>, n: string, w: string)
    requires IsName(n) && forall i :: 0 <= i < |before| ==> IsName(before[i].0) && Colons(before[i].1) <= 1
    requires Hits(Rendered(t, before), n) > Hits(t, n) && Colons(w) == Colons(t) + 2
    ensures Colons(Rendered(t, before + [(n, w)])) > Colons(Rendered(t, [(n, w)] + before))
  {
    ColonsFilledLast(t, before, n, w);
    ColonsFilledFirst(t, before, n, w);
    MoreHitsMoreColons(Hits(Rendered(t, before), n), Hits(t, n), Colons(t), Colons(w) - 1, Colons(Rendered(t, before)));
  }

  lemma ColonsFilledFirst(t: string, before: seq<Variable>, n: string, w: string)
    requires IsName(n) && forall i :: 0 <= i < |before| ==> IsName(before[i].0) && Colons(before[i].1) <= 1
    ensures Colons(Rendered(t, [(n, w)] + before)) <= Colons(t) + Hits(t, n) * (Colons(w) - 1)
  {
    ColonsFilledLast(t, [], n, w);
    assert [] + [(n, w)] == [(n, w)];
    ColonsNeverGrow(t, (n, w), before);
  }

  lemma ColonsFilledLast(t: string, before: seq<Variable>, n: string, w: string)
    requires IsName(n)
    ensures Colons(Rendered(t, before + [(n, w)])) ==
            Colons(Rendered(t, before)) + Hits(Rendered(t, before), n) * (Colons(w) - 1)
  {
    assert (before + [(n, w)])[..|before|] == before;
    ColonsAfterReplace(Rendered(t, before), n, w);
  }

  lemma MoreHits(t: string, names: seq<string>, vs: map<string, string>, n: string)
    requires AllNames(names) && n in names && n !in vs && Fake(Fill(Scan(t, names), vs), n)
    ensures Hits(Show(Fill(Scan(t, names), vs)), n) > Hits(t, n)
  {
    var ps := Scan(t, names);
    ScanShows(t, names);
    FilledNamed(t, names, vs);
    HitsAreHolesAndFakes(Fill(ps, vs), n);
    FakesCounted(Fill(ps, vs), n);
    HolesStay(ps, vs, n);
    FilledNamed(t, names, map[]);
    NothingFilled(ps);
    HitsAreHolesAndFakes(ps, n);
    ScanGenuine(t, names, n);
    FakesCounted(ps, n);
  }

  lemma MoreHitsMoreColons(a: nat, b: nat, c: nat, d: int, text: nat)
    requires a > b && d == c + 1
    ensures text + a * d > c + b * d
  {
    assert a * d >= (b + 1) * d;
  }

  /** The order of the variables matters for no values exactly for the clear templates. */
  lemma OrderIrrelevantIffClear(t: string, names: seq<string>)
    requires AllNames(names)
    ensures OrderIrrelevant(t, names) <==> Clear(t, names)
  {
    if Clear(t, names) {
      forall vars: seq<Variable>, others: seq<Variable>
        | Drawn(vars, names) && Drawn(others, names) && multiset(vars) == multiset(others)
        ensures Rendered(t, vars) == Rendered(t, others)
      {
        VariableOrderIrrelevant(t, names, vars, others);
      }
    } else {
      var i :| 0 <= i < |names| && Spoiled(Scan(t, names), names[i]);
      SpoiltOrders(t, names, names[i]);
    }
  }

  lemma SpoiltOrders(t: string, names: seq<string>, m: string)
    requires AllNames(names) && m in names && Spoiled(Scan(t, names), m)
    ensures !OrderIrrelevant(t, names)
  {
    var before, n := SpoiltPrefix(t, names, m);
    var w := ColonsOnly(Colons(t) + 2);
    var last, first := before + [(n, w)], [(n, w)] + before;
    OrdersDiffer(t, names, before, n, w);
    BothDrawn(before, n, w, names);
    OrderMatters(t, names, last, first);
  }

  lemma OrderMatters(t: string, names: seq<string>, vars: seq<Variable>, others: seq<Variable>)
    requires Drawn(vars, names) && Drawn(others, names) && multiset(vars) == multiset(others)
    requires Rendered(t, vars) != Rendered(t, others)
    ensures !OrderIrrelevant(t, names)
  {
  }

  lemma BothDrawn(before: seq<Variable>, n: string, w: string, names: seq<string>)
    requires Drawn(before, names) && n in names && NUL !in w && forall i :: 0 <= i < |before| ==> before[i].0 != n
    ensures Drawn(before + [(n, w)], names) && Drawn([(n, w)] + before, names)
    ensures multiset(before + [(n, w)]) == multiset([(n, w)] + before)
  {
  }

  lemma Associate(a: string, b: string, c: string)
    ensures a + (b + c) == (a + b) + c
  {
  }

  lemma {:induction false} ShowAround(ps: seq<Piece>, i: nat)
    requires i < |ps|
    ensures Show(ps) == Show(ps[..i]) + (ShowPiece(ps[i]) + Show(ps[i + 1..]))
  {
    if i > 0 {
      ShowAround(ps[1..], i - 1);
      assert ps[..i][1..] == ps[1..][..i - 1] && ps[1..][i..] == ps[i + 1..];
      var first, middle, rest := ShowPiece(ps[0]), Show(ps[1..][..i - 1]), ShowPiece(ps[i]) + Show(ps[i + 1..]);
      assert Show(ps) == first + (middle + rest);
      assert Show(ps[..i]) == first + middle;
      Associate(first, middle, rest);
    }
  }

  /** In a rendering of a clear template, every placeholder's text lexes to exactly the value
      of its variable unless a quote or another placeholder follows. */
  lemma InsertedLiteralsReadBack(t: string, names: seq<string>, vars: seq<Variable>, i: nat)
    requires AllNames(names) && Clear(t, names) && Drawn(vars, names)
    requires i < |Scan(t, names)| && Scan(t, names)[i].Hole? && Scan(t, names)[i].name in Bindings(vars)
    ensures var ps, vs := Scan(t, names), Bindings(vars);
            var before, after := Show(Fill(ps[..i], vs)), Show(Fill(ps[i + 1..], vs));
            var text := Rendered(t, vars);
            && before <= text
            && (LexLiteral(text[|before|..]) == Some((vs[ps[i].name], after)) <==>
                !(i + 1 < |ps| && Closes(ps[i + 1], vs)))
  {
    ClearIsSimultaneous(t, names, vars);
    FilledNamed(t, names, map[]);
    FilledReadsBack(Scan(t, names), Bindings(vars), i);
  }

  lemma FilledReadsBack(ps: seq<Piece>, vs: map<string, string>, i: nat)
    requires Plain(ps) && i < |ps| && ps[i].Hole? && ps[i].name in vs
    ensures var before, after := Show(Fill(ps[..i], vs)), Show(Fill(ps[i + 1..], vs));
            && before <= Show(Fill(ps, vs))
            && (LexLiteral(Show(Fill(ps, vs))[|before|..]) == Some((vs[ps[i].name], after)) <==>
                !(i + 1 < |ps| && Closes(ps[i + 1], vs)))
  {
    var before, after := Show(Fill(ps[..i], vs)), Show(Fill(ps[i + 1..], vs));
    var inner := Literal(vs[ps[i].name]) + after;
    FilledAround(ps, vs, i);
    assert (before + inner)[|before|..] == inner;
    LiteralReadsBack(vs[ps[i].name], after);
    QuoteShown(ps[i + 1..], vs);
    assert "'" <= after <==> after != "" && after[0] == QUOTE;
  }

  lemma FilledAround(ps: seq<Piece>, vs: map<string, string>, i: nat)
    requires i < |ps| && ps[i].Hole? && ps[i].name in vs
    ensures Show(Fill(ps, vs)) == Show(Fill(ps[..i], vs)) + (Literal(vs[ps[i].name]) + Show(Fill(ps[i + 1..], vs)))
  {
    var filled := Fill(ps, vs);
    ShowAround(filled, i);
    assert filled[..i] == Fill(ps[..i], vs) && filled[i + 1..] == Fill(ps[i + 1..], vs);
  }

  /** A placeholder after an unfinished one, although no colon stands before it and no
      identifier character after it: the order decides the text. */
  lemma UnfinishedPlaceholderSpoils()
    ensures Rendered(":'n:'m'", [("m", "x"), ("n", "y")]) == "'y'x'"
    ensures Rendered(":'n:'m'", [("n", "y"), ("m", "x")]) == ":'n'x'"
  {
    LiteralOfOne('x', "x", "'x'");
    LiteralOfOne('y', "y", "'y'");
    ReplaceM();
    ReplaceN();
    ReplaceFinished();
    RenderedTwo(":'n:'m'", "m", "x", "'x'", ":'n'x'", "n", "y", "'y'", "'y'x'");
    RenderedTwo(":'n:'m'", "n", "y", "'y'", ":'n:'m'", "m", "x", "'x'", ":'n'x'");
  }

  lemma RenderedTwo(t: string, a: string, v: string, lv: string, middle: string, b: string, w: string, lw: string,
                    end: string)
    requires Literal(v) == lv && Replace(t, Pattern(a), lv) == middle
    requires Literal(w) == lw && Replace(middle, Pattern(b), lw) == end
    ensures Rendered(t, [(a, v), (b, w)]) == end
  {
    assert [(a, v), (b, w)][..1] == [(a, v)] && [(a, v)][..0] == [];
    assert Rendered(t, [(a, v)]) == middle;
  }

  lemma ReplaceFinished()
    ensures Replace(":'n'x'", Pattern("n"), "'y'") == "'y'x'"
  {
    HoleReplaced("x'", "n", "'y'");
    assert Pattern("n") + "x'" == ":'n'x'";
    NoColonSkipped("x'", "", "n", "'y'");
    assert "x'" + "" == "x'";
  }

  lemma LiteralOfOne(c: char, v: string, literal: string)
    requires c != QUOTE && v == [c] && literal == "'" + v + "'"
    ensures Literal(v) == literal
  {
    DoubledStep(v);
  }

  /** An unfinished placeholder is passed over. */
  lemma UnfinishedPassed(rest: string, m: string, text: string)
    requires !(Pattern(m) <= ":'n" + rest)
    ensures Replace(":'n" + rest, Pattern(m), text) == ":'n" + Replace(rest, Pattern(m), text)
  {
    var t := ":'n" + rest;
    assert t[1..] == "'n" + rest;
    NoColonSkipped("'n", rest, m, text);
  }

  lemma ReplaceM()
    ensures Replace(":'n:'m'", Pattern("m"), "'x'") == ":'n'x'"
  {
    HoleReplaced("", "m", "'x'");
    assert Pattern("m") + "" == ":'m'";
    assert ":'n" + ":'m'" == ":'n:'m'";
    assert Pattern("m")[2] == 'm';
    UnfinishedPassed(":'m'", "m", "'x'");
  }

  lemma ReplaceN()
    ensures Replace(":'n:'m'", Pattern("n"), "'y'") == ":'n:'m'"
  {
    HoleSkipped("m", "", "n", "'y'");
    assert Pattern("m") + "" == ":'m'";
    assert ":'n" + ":'m'" == ":'n:'m'";
    assert Pattern("n")[3] == QUOTE;
    UnfinishedPassed(":'m'", "n", "'y'");
  }
}
