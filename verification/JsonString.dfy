/**
 JSON string literals as Python's `json` module writes them (ASCII only) and reads them
 (strict: no raw control characters).  `char` is a Unicode scalar value, so a literal that
 escapes an unpaired surrogate has no value here.
 */
module JsonString {
  import opened Wrappers
  import opened Surrogates

  function HexDigit(d: nat): (c: char)
    requires d < 16
    ensures IsHex(c) && HexValue(c) == d
    ensures '0' <= c <= 'f'
  {
    if d < 10 then ('0' as nat + d) as char else ('a' as nat + d - 10) as char
  }

  predicate IsHex(c: char) {
    '0' <= c <= '9' || 'a' <= c <= 'f' || 'A' <= c <= 'F'
  }

  function HexValue(c: char): (d: nat)
    requires IsHex(c)
    ensures d < 16
  {
    if c <= '9' then c as nat - '0' as nat
    else if c <= 'F' then 10 + (c as nat - 'A' as nat)
    else 10 + (c as nat - 'a' as nat)
  }

  /** The hexadecimal digits by their ASCII codes, and what they stand for. */
  lemma HexDigitsAre(c: char)
    ensures IsHex(c) <==> 48 <= c as int <= 57 || 65 <= c as int <= 70 || 97 <= c as int <= 102
    ensures IsHex(c) ==> HexValue(c) == if c as int <= 57 then c as int - 48 else (c as int - 65) % 32 + 10
  {
  }

  /** A `\u` escape of one UTF-16 code unit. */
  function UnitEscape(u: nat): (s: string)
    requires u < 0x1_0000
    ensures |s| == 6
  {
    ['\\', 'u', HexDigit(u / 4096), HexDigit(u / 256 % 16), HexDigit(u / 16 % 16), HexDigit(u % 16)]
  }

  predicate IsUnitEscape(s: string) {
    |s| >= 6 && s[0] == '\\' && s[1] == 'u' && IsHex(s[2]) && IsHex(s[3]) && IsHex(s[4]) && IsHex(s[5])
  }

  function UnitOf(s: string): (u: nat)
    requires IsUnitEscape(s)
    ensures u < 0x1_0000
  {
    HexValue(s[2]) * 4096 + HexValue(s[3]) * 256 + HexValue(s[4]) * 16 + HexValue(s[5])
  }

  lemma FourDigits(u: nat)
    requires u < 0x1_0000
    ensures u / 4096 < 16
    ensures u / 4096 * 4096 + u / 256 % 16 * 256 + u / 16 % 16 * 16 + u % 16 == u
  {
    assert u / 256 / 16 == u / 4096 && u / 16 / 16 == u / 256;
  }

  lemma UnitEscapeRoundTrip(u: nat, rest: string)
    requires u < 0x1_0000
    ensures IsUnitEscape(UnitEscape(u) + rest) && UnitOf(UnitEscape(u) + rest) == u
    ensures (UnitEscape(u) + rest)[6..] == rest
  {
    var s := UnitEscape(u) + rest;
    FourDigits(u);
    assert s[2] == HexDigit(u / 4096) && s[3] == HexDigit(u / 256 % 16);
    assert s[4] == HexDigit(u / 16 % 16) && s[5] == HexDigit(u % 16);
  }

  // ---- Writing

  function EscapeChar(c: char): (s: string)
    ensures |s| > 0
  {
    if c == '"' then ['\\', '"']
    else if c == '\\' then ['\\', '\\']
    else if c == '\n' then ['\\', 'n']
    else if c == '\r' then ['\\', 'r']
    else if c == '\t' then ['\\', 't']
    else if c as nat == 8 then ['\\', 'b']
    else if c as nat == 12 then ['\\', 'f']
    else if ' ' <= c <= '~' then [c]
    else if c as nat < 0x1_0000 then UnitEscape(c as nat)
    else
      var v := c as nat - 0x1_0000;
      UnitEscape(0xD800 + v / 0x400) + UnitEscape(0xDC00 + v % 0x400)
  }

  function EscapeAll(s: string): (r: string) {
    if s == [] then [] else EscapeChar(s[0]) + EscapeAll(s[1..])
  }

  /** `json.dumps` of a string. */
  function Quote(s: string): (r: string)
    ensures |r| >= 2 && r[0] == '"' && r[|r| - 1] == '"'
  {
    ['"'] + EscapeAll(s) + ['"']
  }

  // ---- Reading

  function SimpleEscape(c: char): (r: Option<char>) {
    if c == '"' then Some('"')
    else if c == '\\' then Some('\\')
    else if c == '/' then Some('/')
    else if c == 'b' then Some(8 as char)
    else if c == 'f' then Some(12 as char)
    else if c == 'n' then Some('\n')
    else if c == 'r' then Some('\r')
    else if c == 't' then Some('\t')
    else None
  }

  function Prepend(c: char, r: Option<string>): Option<string> {
    if r.Some? then Some([c] + r.value) else None
  }

  /** The rest of a literal after its opening quote; it must end at the closing quote. */
  function DecodeBody(s: string): (r: Option<string>) {
    if s == [] then None
    else if s[0] == '"' then (if |s| == 1 then Some([]) else None)
    else if s[0] == '\\' then
      if IsUnitEscape(s) then
        var u := UnitOf(s);
        if IsHigh(u) then
          if IsUnitEscape(s[6..]) && IsLow(UnitOf(s[6..])) then
            Prepend(PairValue(u, UnitOf(s[6..])) as char, DecodeBody(s[12..]))
          else None
        else if IsLow(u) then None
        else Prepend(u as char, DecodeBody(s[6..]))
      else if |s| >= 2 && SimpleEscape(s[1]).Some? then Prepend(SimpleEscape(s[1]).value, DecodeBody(s[2..]))
      else None
    else if s[0] < ' ' then None
    else Prepend(s[0], DecodeBody(s[1..]))
  }

  function Decode(s: string): (r: Option<string>)
    requires s != [] && s[0] == '"'
  {
    DecodeBody(s[1..])
  }

  // ---- Round trip

  lemma DecodeEscapedChar(c: char, rest: string)
    ensures DecodeBody(EscapeChar(c) + rest) == Prepend(c, DecodeBody(rest))
  {
    if |EscapeChar(c)| <= 2 {
      DecodeShort(c, rest);
    } else if c as nat < 0x1_0000 {
      DecodeUnit(c, rest);
    } else {
      DecodePair(c, rest);
    }
  }

  lemma DecodeShort(c: char, rest: string)
    requires |EscapeChar(c)| <= 2
    ensures DecodeBody(EscapeChar(c) + rest) == Prepend(c, DecodeBody(rest))
  {
    var s := EscapeChar(c) + rest;
    if |EscapeChar(c)| == 1 {
      assert s[0] == c && s[1..] == rest;
    } else {
      assert s[0] == '\\' && s[1] == EscapeChar(c)[1] && s[2..] == rest;
      assert SimpleEscape(s[1]) == Some(c);
    }
  }

  lemma DecodeUnit(c: char, rest: string)
    requires EscapeChar(c) == if c as nat < 0x1_0000 then UnitEscape(c as nat) else []
    ensures DecodeBody(EscapeChar(c) + rest) == Prepend(c, DecodeBody(rest))
  {
    UnitEscapeRoundTrip(c as nat, rest);
  }

  lemma DecodePair(c: char, rest: string)
    requires c as nat >= 0x1_0000
    ensures DecodeBody(EscapeChar(c) + rest) == Prepend(c, DecodeBody(rest))
  {
    var v := c as nat - 0x1_0000;
    var high, low := 0xD800 + v / 0x400, 0xDC00 + v % 0x400;
    assert EscapeChar(c) + rest == UnitEscape(high) + (UnitEscape(low) + rest);
    PairOf(v);
    DecodeUnits(high, low, rest);
  }

  lemma PairOf(v: nat)
    requires v < 0x10_0000
    ensures var high, low := 0xD800 + v / 0x400, 0xDC00 + v % 0x400;
            IsHigh(high) && IsLow(low) && PairValue(high, low) == 0x1_0000 + v
  {
  }

  lemma DecodeUnits(high: nat, low: nat, rest: string)
    requires IsHigh(high) && IsLow(low)
    ensures DecodeBody(UnitEscape(high) + (UnitEscape(low) + rest)) ==
            Prepend(PairValue(high, low) as char, DecodeBody(rest))
  {
    var tail := UnitEscape(low) + rest;
    var s := UnitEscape(high) + tail;
    UnitEscapeRoundTrip(high, tail);
    UnitEscapeRoundTrip(low, rest);
    assert s[12..] == s[6..][6..];
  }

  lemma {:induction false} DecodeEscaped(s: string)
    ensures DecodeBody(EscapeAll(s) + ['"']) == Some(s)
  {
    if s == [] {
      assert EscapeAll(s) + ['"'] == ['"'];
    } else {
      DecodeEscaped(s[1..]);
      DecodeEscapedChar(s[0], EscapeAll(s[1..]) + ['"']);
      assert EscapeAll(s) + ['"'] == EscapeChar(s[0]) + (EscapeAll(s[1..]) + ['"']);
      assert s == [s[0]] + s[1..];
    }
  }

  /** Every string survives being written and read. */
  lemma QuoteRoundTrip(s: string)
    ensures Decode(Quote(s)) == Some(s)
  {
    assert Quote(s)[1..] == EscapeAll(s) + ['"'];
    DecodeEscaped(s);
  }

  lemma EscapeCharPrintable(c: char)
    ensures forall i :: 0 <= i < |EscapeChar(c)| ==> ' ' <= EscapeChar(c)[i] <= '~'
  {
    if c as nat >= 0x1_0000 {
      var v := c as nat - 0x1_0000;
      UnitEscapePrintable(0xD800 + v / 0x400);
      UnitEscapePrintable(0xDC00 + v % 0x400);
    } else {
      UnitEscapePrintable(c as nat);
    }
  }

  lemma UnitEscapePrintable(u: nat)
    requires u < 0x1_0000
    ensures forall i :: 0 <= i < 6 ==> ' ' <= UnitEscape(u)[i] <= '~'
  {
  }

  /** A written literal is printable ASCII. */
  lemma {:induction false} EscapeAllPrintable(s: string)
    ensures forall i :: 0 <= i < |EscapeAll(s)| ==> ' ' <= EscapeAll(s)[i] <= '~'
  {
    if s != [] {
      EscapeAllPrintable(s[1..]);
      EscapeCharPrintable(s[0]);
    }
  }

  // ---- Literals without a colon

  /** An equivalent escape of one character that writes no colon. */
  function ColonFreeChar(c: char): (s: string) {
    if c == ':' then UnitEscape(0x3A) else EscapeChar(c)
  }

  function ColonFreeAll(s: string): (r: string) {
    if s == [] then [] else ColonFreeChar(s[0]) + ColonFreeAll(s[1..])
  }

  /** A JSON literal of the string in which every colon is escaped. */
  function QuoteColonFree(s: string): (r: string)
    ensures |r| >= 2 && r[0] == '"' && r[|r| - 1] == '"'
  {
    ['"'] + ColonFreeAll(s) + ['"']
  }

  lemma DecodeColonFreeChar(c: char, rest: string)
    ensures DecodeBody(ColonFreeChar(c) + rest) == Prepend(c, DecodeBody(rest))
  {
    if c == ':' {
      UnitEscapeRoundTrip(0x3A, rest);
      assert 0x3A as char == ':';
    } else {
      DecodeEscapedChar(c, rest);
    }
  }

  lemma {:induction false} DecodeColonFree(s: string)
    ensures DecodeBody(ColonFreeAll(s) + ['"']) == Some(s)
  {
    if s == [] {
      assert ColonFreeAll(s) + ['"'] == ['"'];
    } else {
      DecodeColonFree(s[1..]);
      DecodeColonFreeChar(s[0], ColonFreeAll(s[1..]) + ['"']);
      assert ColonFreeAll(s) + ['"'] == ColonFreeChar(s[0]) + (ColonFreeAll(s[1..]) + ['"']);
      assert s == [s[0]] + s[1..];
    }
  }

  lemma ColonFreeRoundTrip(s: string)
    ensures Decode(QuoteColonFree(s)) == Some(s)
  {
    assert QuoteColonFree(s)[1..] == ColonFreeAll(s) + ['"'];
    DecodeColonFree(s);
  }

  lemma UnitEscapeHasNoColon(u: nat)
    requires u < 0x1_0000
    ensures forall i :: 0 <= i < 6 ==> ' ' <= UnitEscape(u)[i] <= '~' && UnitEscape(u)[i] != ':'
  {
  }

  lemma ColonFreeCharPlain(c: char)
    ensures forall i :: 0 <= i < |ColonFreeChar(c)| ==> ' ' <= ColonFreeChar(c)[i] <= '~' && ColonFreeChar(c)[i] != ':'
  {
    UnitEscapeHasNoColon(0x3A);
    EscapeCharPrintable(c);
    if c as nat >= 0x1_0000 {
      var v := c as nat - 0x1_0000;
      UnitEscapeHasNoColon(0xD800 + v / 0x400);
      UnitEscapeHasNoColon(0xDC00 + v % 0x400);
    } else {
      UnitEscapeHasNoColon(c as nat);
    }
  }

  lemma {:induction false} ColonFreePlain(s: string)
    ensures forall i :: 0 <= i < |ColonFreeAll(s)| ==> ' ' <= ColonFreeAll(s)[i] <= '~' && ColonFreeAll(s)[i] != ':'
  {
    if s != [] {
      ColonFreePlain(s[1..]);
      ColonFreeCharPlain(s[0]);
    }
  }
}
