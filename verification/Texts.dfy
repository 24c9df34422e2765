/** String operations that the scripts use: `str.replace` and `str.split`. */
module Texts {

  /** Left to right, without overlaps; the inserted text is not scanned again. */
  function Replace(s: string, pattern: string, text: string): (r: string)
    requires pattern != ""
  {
    if s == "" then ""
    else if pattern <= s then text + Replace(s[|pattern|..], pattern, text)
    else [s[0]] + Replace(s[1..], pattern, text)
  }

  /** `s.split(c)` for a single character; one part more than there are separators. */
  function Split(s: string, c: char): (parts: seq<string>)
    ensures |parts| > 0
  {
    if s == "" then [""]
    else
      var rest := Split(s[1..], c);
      if s[0] == c then [""] + rest else [[s[0]] + rest[0]] + rest[1..]
  }

  function Join(parts: seq<string>, c: char): (s: string) {
    if parts == [] then ""
    else if |parts| == 1 then parts[0]
    else parts[0] + [c] + Join(parts[1..], c)
  }

  lemma {:induction false} SplitOne(part: string, c: char)
    requires c !in part
    ensures Split(part, c) == [part]
  {
    if part != "" {
      SplitOne(part[1..], c);
      assert part == [part[0]] + part[1..];
    }
  }

  lemma {:induction false} SplitFirst(part: string, c: char, rest: string)
    requires c !in part
    ensures Split(part + [c] + rest, c) == [part] + Split(rest, c)
  {
    var s := part + [c] + rest;
    if part == "" {
      assert s[1..] == rest;
    } else {
      SplitFirst(part[1..], c, rest);
      assert s[1..] == part[1..] + [c] + rest && s[0] == part[0];
      assert part == [part[0]] + part[1..];
    }
  }

  /** Splitting undoes joining. */
  lemma {:induction false} SplitJoin(parts: seq<string>, c: char)
    requires parts != [] && forall i :: 0 <= i < |parts| ==> c !in parts[i]
    ensures Split(Join(parts, c), c) == parts
  {
    if |parts| == 1 {
      SplitOne(parts[0], c);
    } else {
      SplitJoin(parts[1..], c);
      SplitFirst(parts[0], c, Join(parts[1..], c));
    }
  }

  lemma {:induction false} SplitParts(s: string, c: char)
    ensures forall i :: 0 <= i < |Split(s, c)| ==> c !in Split(s, c)[i]
    ensures Join(Split(s, c), c) == s
  {
    if s != "" {
      SplitParts(s[1..], c);
      assert s == [s[0]] + s[1..];
      if s[0] == c {
        assert Split(s, c)[1..] == Split(s[1..], c);
      } else {
        JoinLonger(s[0], Split(s[1..], c), c);
      }
    }
  }

  lemma JoinLonger(first: char, parts: seq<string>, c: char)
    requires parts != []
    ensures Join([[first] + parts[0]] + parts[1..], c) == [first] + Join(parts, c)
  {
    var longer := [[first] + parts[0]] + parts[1..];
    if |parts| > 1 {
      assert longer[1..] == parts[1..];
      assert [first] + parts[0] + [c] + Join(parts[1..], c) == [first] + (parts[0] + [c] + Join(parts[1..], c));
    }
  }
}
