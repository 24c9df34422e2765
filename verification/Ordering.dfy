/** Lexicographic order on sequences of numbers, and on strings through their code points. */
module Ordering {

  predicate Less(a: seq<nat>, b: seq<nat>) {
    b != [] && (a == [] || a[0] < b[0] || (a[0] == b[0] && Less(a[1..], b[1..])))
  }

  lemma {:induction false} LessIrreflexive(a: seq<nat>)
    ensures !Less(a, a)
  {
    if a != [] { LessIrreflexive(a[1..]); }
  }

  lemma {:induction false} LessTransitive(a: seq<nat>, b: seq<nat>, c: seq<nat>)
    requires Less(a, b) && Less(b, c)
    ensures Less(a, c)
  {
    if a != [] && a[0] == b[0] == c[0] { LessTransitive(a[1..], b[1..], c[1..]); }
  }

  lemma {:induction false} LessTotal(a: seq<nat>, b: seq<nat>)
    ensures Less(a, b) || a == b || Less(b, a)
  {
    if a != [] && b != [] && a[0] == b[0] {
      LessTotal(a[1..], b[1..]);
      assert a == [a[0]] + a[1..] && b == [b[0]] + b[1..];
    }
  }

  /** A common prefix does not matter. */
  lemma {:induction false} LessAfterPrefix(p: seq<nat>, a: seq<nat>, b: seq<nat>)
    ensures Less(p + a, p + b) <==> Less(a, b)
  {
    if p == [] {
      assert p + a == a && p + b == b;
    } else {
      LessAfterPrefix(p[1..], a, b);
      assert (p + a)[1..] == p[1..] + a && (p + b)[1..] == p[1..] + b;
    }
  }

  // ---- Strings

  function Codes(s: string): (r: seq<nat>) {
    seq(|s|, i requires 0 <= i < |s| => s[i] as nat)
  }

  lemma CodesInjective(s: string, t: string)
    ensures Codes(s) == Codes(t) <==> s == t
  {
    if Codes(s) == Codes(t) {
      assert |Codes(s)| == |s| && |Codes(t)| == |t|;
      forall i | 0 <= i < |s| ensures s[i] == t[i] { assert Codes(s)[i] == Codes(t)[i]; }
    }
  }

  predicate StringLess(s: string, t: string) {
    Less(Codes(s), Codes(t))
  }

  lemma StringLessTotal(s: string, t: string)
    ensures StringLess(s, t) || s == t || StringLess(t, s)
    ensures !(StringLess(s, t) && (s == t || StringLess(t, s)))
  {
    LessTotal(Codes(s), Codes(t));
    CodesInjective(s, t);
    LessIrreflexive(Codes(s));
    if StringLess(s, t) && StringLess(t, s) { LessTransitive(Codes(s), Codes(t), Codes(s)); }
  }
}
