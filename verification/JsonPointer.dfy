/**
 `json_pointer` of scripts/client_acceptance.py: resolving a JSON Pointer (RFC 6901).

 A missing value and a JSON null both come back as `None`; array positions are strings of
 ASCII digits, and, unlike section 4 of RFC 6901, leading zeros are accepted.
 */
module JsonPointer {
  import opened Wrappers
  import opened Texts
  import opened Decimals

  datatype Value =
    | Null
    | Leaf(text: string)
    | List(items: seq<Value>)
    | Object(members: map<string, Value>)

  // ---- Reference tokens

  /** Undoing the escapes by two replacements, `~1` before `~0`. */
  function Unescape(part: string): (r: string) {
    Replace(Replace(part, "~1", "/"), "~0", "~")
  }

  /** Section 3 of RFC 6901: `~` is written `~0` and `/` is written `~1`. */
  function Escape(token: string): (r: string) {
    if token == "" then ""
    else (if token[0] == '~' then "~0" else if token[0] == '/' then "~1" else [token[0]]) + Escape(token[1..])
  }

  /** Section 4 of RFC 6901, each escape read once where it stands. */
  function Decoded(part: string): (r: string) {
    if part == "" then ""
    else if "~1" <= part then "/" + Decoded(part[2..])
    else if "~0" <= part then "~" + Decoded(part[2..])
    else [part[0]] + Decoded(part[1..])
  }

  lemma ReplaceChar(c: char, rest: string, pattern: string, text: string)
    requires pattern != "" && (pattern[0] != c || !(pattern <= [c] + rest))
    ensures Replace([c] + rest, pattern, text) == [c] + Replace(rest, pattern, text)
  {
    assert ([c] + rest)[1..] == rest && ([c] + rest)[0] == c;
  }

  lemma ReplacePattern(rest: string, pattern: string, text: string)
    requires pattern != ""
    ensures Replace(pattern + rest, pattern, text) == text + Replace(rest, pattern, text)
  {
    assert (pattern + rest)[|pattern|..] == rest;
  }

  /** The first replacement leaves a `0` in front only where one stood. */
  lemma FirstKept(s: string)
    ensures "0" <= Replace(s, "~1", "/") <==> "0" <= s
  {
    if s != "" {
      var r := Replace(s, "~1", "/");
      if "~1" <= s {
        assert r[0] == '/';
      } else {
        assert r[0] == s[0];
      }
      assert "0" <= s <==> s[0] == '0';
      assert "0" <= r <==> r[0] == '0';
    }
  }

  lemma TildeZero(rest: string)
    ensures "~0" <= "~" + rest <==> "0" <= rest
  {
    if "0" <= rest { assert ("~" + rest)[1] == '0'; }
    if "~0" <= "~" + rest { assert ("~" + rest)[1] == "~0"[1]; }
  }

  /** Two passes are as good as one, for every token, also an ill-formed one. */
  lemma {:induction false} UnescapeReadsOnce(part: string)
    ensures Unescape(part) == Decoded(part)
  {
    if part != "" {
      if "~1" <= part {
        var rest := part[2..];
        UnescapeReadsOnce(rest);
        assert part == "~1" + rest;
        ReplacePattern(rest, "~1", "/");
        ReplaceChar('/', Replace(rest, "~1", "/"), "~0", "~");
      } else if "~0" <= part {
        var rest := part[2..];
        UnescapeReadsOnce(rest);
        assert part == ['~'] + (['0'] + rest);
        ReplaceChar('~', ['0'] + rest, "~1", "/");
        ReplaceChar('0', rest, "~1", "/");
        assert ['~'] + (['0'] + Replace(rest, "~1", "/")) == "~0" + Replace(rest, "~1", "/");
        ReplacePattern(Replace(rest, "~1", "/"), "~0", "~");
      } else {
        var rest := part[1..];
        UnescapeReadsOnce(rest);
        assert part == [part[0]] + rest;
        ReplaceChar(part[0], rest, "~1", "/");
        FirstKept(rest);
        TildeZero(rest);
        TildeZero(Replace(rest, "~1", "/"));
        ReplaceChar(part[0], Replace(rest, "~1", "/"), "~0", "~");
      }
    }
  }

  lemma {:induction false} EscapeRoundTrip(token: string)
    ensures Decoded(Escape(token)) == token && '/' !in Escape(token)
  {
    if token != "" {
      var rest := Escape(token[1..]);
      EscapeRoundTrip(token[1..]);
      assert token == [token[0]] + token[1..];
      if token[0] == '~' {
        assert Escape(token) == "~0" + rest && ("~0" + rest)[2..] == rest;
        assert ("~0" + rest)[1] == '0' && "~1"[1] == '1';
      } else if token[0] == '/' {
        assert Escape(token) == "~1" + rest && ("~1" + rest)[2..] == rest;
      } else {
        assert Escape(token) == [token[0]] + rest && ([token[0]] + rest)[1..] == rest;
      }
    }
  }

  // ---- Resolution

  predicate IsDigits(s: string) {
    s != "" && forall i :: 0 <= i < |s| ==> '0' <= s[i] <= '9'
  }

  /** An index is written in decimal digits, one at least. */
  lemma DigitsAre(s: string)
    ensures IsDigits(s) <==> |s| > 0 && forall c :: c in s ==> 48 <= c as int <= 57
  {
    if IsDigits(s) {
      forall c | c in s ensures 48 <= c as int <= 57 { var i :| 0 <= i < |s| && s[i] == c; }
    }
    assert forall i :: 0 <= i < |s| ==> s[i] in s;
  }

  function Into(v: Value, part: string): (r: Option<Value>) {
    if v.Object? && part in v.members then Some(v.members[part])
    else if v.List? && IsDigits(part) && DecimalValue(part) < |v.items| then Some(v.items[DecimalValue(part)])
    else None
  }

  function Walk(v: Value, parts: seq<string>): (r: Option<Value>) {
    if parts == [] then Some(v)
    else
      var next := Into(v, Unescape(parts[0]));
      if next.None? then None else Walk(next.value, parts[1..])
  }

  function Parts(pointer: string): (parts: seq<string>) {
    if pointer == "" then [] else Split(pointer[1..], '/')
  }

  function Resolved(v: Value, pointer: string): (r: Result<Value>) {
    if pointer != "" && pointer[0] != '/' then Refused("JSON pointer must start with /")
    else
      var found := Walk(v, Parts(pointer));
      Ok(if found.Some? then found.value else Null)
  }

  method Resolve(value: Value, pointer: string) returns (r: Result<Value>)
    ensures r == Resolved(value, pointer)
  {
    if pointer == "" { return Ok(value); }
    if pointer[0] != '/' { return Refused("JSON pointer must start with /"); }
    var current := value;
    var parts := Split(pointer[1..], '/');
    for i := 0 to |parts|
      invariant Walk(current, parts[i..]) == Walk(value, parts)
    {
      var part := Replace(Replace(parts[i], "~1", "/"), "~0", "~");
      assert parts[i..][0] == parts[i] && parts[i..][1..] == parts[i + 1..];
      if current.Object? && part in current.members {
        current := current.members[part];
      } else if current.List? && IsDigits(part) && DecimalValue(part) < |current.items| {
        current := current.items[DecimalValue(part)];
      } else {
        return Ok(Null);
      }
    }
    return Ok(current);
  }

  // ---- Paths

  datatype Step = Key(name: string) | Position(index: nat)

  /** The subvalue at a path of object keys and array positions. */
  function At(v: Value, path: seq<Step>): (r: Option<Value>) {
    if path == [] then Some(v)
    else
      match path[0]
      case Key(k) => if v.Object? && k in v.members then At(v.members[k], path[1..]) else None
      case Position(i) => if v.List? && i < |v.items| then At(v.items[i], path[1..]) else None
  }

  function Token(step: Step): (s: string) {
    match step
    case Key(k) => k
    case Position(i) => Decimal(i)
  }

  function Tokens(path: seq<Step>): (r: seq<string>) {
    seq(|path|, i requires 0 <= i < |path| => Escape(Token(path[i])))
  }

  /** The pointer that RFC 6901 writes for a path. */
  function Pointer(path: seq<Step>): (s: string) {
    if path == [] then "" else "/" + Join(Tokens(path), '/')
  }

  /** The reference token selects this step. */
  predicate Reads(step: Step, part: string) {
    match step
    case Key(k) => Decoded(part) == k
    case Position(i) => IsDigits(Decoded(part)) && DecimalValue(Decoded(part)) == i
  }

  ghost predicate ReadsAll(path: seq<Step>, parts: seq<string>) {
    |path| == |parts| && forall i :: 0 <= i < |path| ==> Reads(path[i], parts[i])
  }

  /** Each path that the tokens select leads where the pointer leads. */
  lemma {:induction false} PathIsWalked(v: Value, path: seq<Step>, parts: seq<string>)
    requires ReadsAll(path, parts) && At(v, path).Some?
    ensures Walk(v, parts) == At(v, path)
  {
    if path != [] {
      UnescapeReadsOnce(parts[0]);
      var next := Into(v, Unescape(parts[0]));
      assert Reads(path[0], parts[0]);
      forall i | 0 <= i < |path[1..]| ensures Reads(path[1..][i], parts[1..][i]) {
        assert Reads(path[i + 1], parts[i + 1]);
      }
      PathIsWalked(next.value, path[1..], parts[1..]);
    }
  }

  lemma {:induction false} WalkHasPath(v: Value, parts: seq<string>) returns (path: seq<Step>)
    requires Walk(v, parts).Some?
    ensures ReadsAll(path, parts) && At(v, path) == Walk(v, parts)
  {
    if parts == [] {
      path := [];
    } else {
      UnescapeReadsOnce(parts[0]);
      var part := Decoded(parts[0]);
      var next := Into(v, part);
      var rest := WalkHasPath(next.value, parts[1..]);
      var step := if v.Object? then Key(part) else Position(DecimalValue(part));
      path := [step] + rest;
      assert path[1..] == rest;
    }
  }

  /** A pointer finds a value exactly when some path that its tokens select leads to it. */
  lemma FindsExactlyPaths(v: Value, parts: seq<string>, w: Value)
    ensures Walk(v, parts) == Some(w) <==> exists path :: ReadsAll(path, parts) && At(v, path) == Some(w)
  {
    if Walk(v, parts) == Some(w) {
      var path := WalkHasPath(v, parts);
    }
    if path :| ReadsAll(path, parts) && At(v, path) == Some(w) {
      PathIsWalked(v, path, parts);
    }
  }

  lemma TokenReads(step: Step)
    ensures Reads(step, Escape(Token(step))) && '/' !in Escape(Token(step))
  {
    EscapeRoundTrip(Token(step));
    if step.Position? { DecimalRoundTrip(step.index); }
  }

  /** Resolving the pointer of an existing path gives the value at that path, whatever
      mixture of `~` and `/` its keys contain. */
  lemma PointerFindsPath(v: Value, path: seq<Step>)
    requires At(v, path).Some?
    ensures Resolved(v, Pointer(path)) == Ok(At(v, path).value)
  {
    var tokens := Tokens(path);
    forall i | 0 <= i < |path| ensures Reads(path[i], tokens[i]) && '/' !in tokens[i] { TokenReads(path[i]); }
    if path != [] {
      SplitJoin(tokens, '/');
      assert Pointer(path)[1..] == Join(tokens, '/');
    }
    PathIsWalked(v, path, tokens);
  }
}
