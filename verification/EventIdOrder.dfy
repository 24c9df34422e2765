/**
 `compareOpaqueEventIds` of packages/contracts/src/projection.ts: event ids ordered by
 the bytes of their UTF-8 encoding.

 A JavaScript string is a sequence of UTF-16 code units.  `TextEncoder` first replaces each
 unpaired surrogate by U+FFFD and then encodes scalar values as section 3 of RFC 3629 says.
 */
module EventIdOrder {
  import opened Wrappers
  import opened Ordering
  import opened Surrogates

  type Unit = n: nat | n < 0x1_0000

  const REPLACEMENT: nat := 0xFFFD
  const MAX_ID_UNITS: nat := 1024

  predicate IsScalar(c: nat) {
    c < 0xD800 || 0xE000 <= c < 0x11_0000
  }

  // ---- Parsing an id: trim, then a length of 1 to 1024 units

  /** White space and line terminators, as `String.prototype.trim` removes them. */
  predicate IsSpace(u: Unit) {
    || 0x09 <= u <= 0x0D || u == 0x20 || u == 0xA0 || u == 0x1680 || 0x2000 <= u <= 0x200A
    || u == 0x2028 || u == 0x2029 || u == 0x202F || u == 0x205F || u == 0x3000 || u == 0xFEFF
  }

  /** The 25 code units that are trimmed. */
  lemma SpacesAre(u: Unit)
    ensures IsSpace(u) <==>
            u in {9, 10, 11, 12, 13, 32, 0xA0, 0x1680, 0x2000, 0x2001, 0x2002, 0x2003, 0x2004, 0x2005, 0x2006, 0x2007,
                  0x2008, 0x2009, 0x200A, 0x2028, 0x2029, 0x202F, 0x205F, 0x3000, 0xFEFF}
  {
  }

  function TrimStart(s: seq<Unit>): (r: seq<Unit>) {
    if s != [] && IsSpace(s[0]) then TrimStart(s[1..]) else s
  }

  function TrimEnd(s: seq<Unit>): (r: seq<Unit>) {
    if s != [] && IsSpace(s[|s| - 1]) then TrimEnd(s[..|s| - 1]) else s
  }

  function Trim(s: seq<Unit>): (r: seq<Unit>) {
    TrimEnd(TrimStart(s))
  }

  predicate IsId(s: seq<Unit>) {
    1 <= |Trim(s)| <= MAX_ID_UNITS
  }

  // ---- Code units to scalar values to bytes

  predicate StartsPair(s: seq<Unit>) {
    |s| >= 2 && IsHigh(s[0]) && IsLow(s[1])
  }

  function Scalars(s: seq<Unit>): (cs: seq<nat>)
    ensures forall i :: 0 <= i < |cs| ==> IsScalar(cs[i])
  {
    if s == [] then []
    else if StartsPair(s) then [PairValue(s[0], s[1])] + Scalars(s[2..])
    else if IsSurrogate(s[0]) then [REPLACEMENT] + Scalars(s[1..])
    else [s[0]] + Scalars(s[1..])
  }

  /** The octets of one scalar value, section 3 of RFC 3629. */
  function EncodeScalar(c: nat): (bytes: seq<nat>)
    requires IsScalar(c)
    ensures 1 <= |bytes| <= 4 && forall i :: 0 <= i < |bytes| ==> bytes[i] < 256
  {
    if c < 0x80 then [c]
    else if c < 0x800 then [0xC0 + c / 64, 0x80 + c % 64]
    else if c < 0x1_0000 then [0xE0 + c / 4096, 0x80 + c / 64 % 64, 0x80 + c % 64]
    else [0xF0 + c / 262144, 0x80 + c / 4096 % 64, 0x80 + c / 64 % 64, 0x80 + c % 64]
  }

  function Encode(cs: seq<nat>): (bytes: seq<nat>)
    requires forall i :: 0 <= i < |cs| ==> IsScalar(cs[i])
  {
    if cs == [] then [] else EncodeScalar(cs[0]) + Encode(cs[1..])
  }

  /** The UTF-16 code units of one scalar value, section 2.1 of RFC 2781. */
  function UnitsOf(c: nat): (units: seq<Unit>)
    requires IsScalar(c)
  {
    if c < 0x1_0000 then [c] else [0xD800 + (c - 0x1_0000) / 0x400, 0xDC00 + (c - 0x1_0000) % 0x400]
  }

  function Utf16(cs: seq<nat>): (units: seq<Unit>)
    requires forall i :: 0 <= i < |cs| ==> IsScalar(cs[i])
  {
    if cs == [] then [] else UnitsOf(cs[0]) + Utf16(cs[1..])
  }

  lemma OneScalar(c: nat, rest: seq<Unit>)
    requires IsScalar(c)
    ensures Scalars(UnitsOf(c) + rest) == [c] + Scalars(rest)
  {
    var s := UnitsOf(c) + rest;
    if c < 0x1_0000 {
      assert s[0] == c && s[1..] == rest;
    } else {
      assert s[0] == UnitsOf(c)[0] && s[1] == UnitsOf(c)[1] && s[2..] == rest;
    }
  }

  /** Every sequence of scalar values is read back from its code units. */
  lemma {:induction false} Utf16RoundTrip(cs: seq<nat>)
    requires forall i :: 0 <= i < |cs| ==> IsScalar(cs[i])
    ensures Scalars(Utf16(cs)) == cs
  {
    if cs != [] {
      Utf16RoundTrip(cs[1..]);
      OneScalar(cs[0], Utf16(cs[1..]));
      assert cs == [cs[0]] + cs[1..];
    }
  }

  /** The octets carry the bits of the scalar value: six in each continuation octet, the rest in the
      lead octet. */
  lemma OctetsCarry(c: nat)
    requires IsScalar(c)
    ensures var p := EncodeScalar(c);
            && (forall i :: 1 <= i < |p| ==> 0x80 <= p[i] < 0xC0)
            && (c < 0x80 ==> |p| == 1 && p[0] == c)
            && (0x80 <= c < 0x800 ==> |p| == 2 && (p[0] - 0xC0) * 64 + (p[1] - 0x80) == c)
            && (0x800 <= c < 0x1_0000 ==> |p| == 3 && ((p[0] - 0xE0) * 64 + (p[1] - 0x80)) * 64 + (p[2] - 0x80) == c)
            && (0x1_0000 <= c ==>
                  && |p| == 4
                  && (((p[0] - 0xF0) * 64 + (p[1] - 0x80)) * 64 + (p[2] - 0x80)) * 64 + (p[3] - 0x80) == c)
  {
    assert c / 64 / 64 == c / 4096 && c / 4096 / 64 == c / 262144;
  }

  // ---- Byte order is scalar order

  lemma {:induction false} LessByPrefix(p: seq<nat>, q: seq<nat>, x: seq<nat>, y: seq<nat>)
    requires |p| == |q| && Less(p, q)
    ensures Less(p + x, q + y)
  {
    assert (p + x)[1..] == p[1..] + x && (q + y)[1..] == q[1..] + y;
    if p[0] == q[0] { LessByPrefix(p[1..], q[1..], x, y); }
  }

  /** A smaller scalar value has smaller octets, whatever follows. */
  lemma SmallerScalar(c: nat, d: nat, x: seq<nat>, y: seq<nat>)
    requires IsScalar(c) && IsScalar(d) && c < d
    ensures Less(EncodeScalar(c) + x, EncodeScalar(d) + y)
  {
    var p, q := EncodeScalar(c), EncodeScalar(d);
    if |p| == |q| {
      SameWidth(c, d);
      LessByPrefix(p, q, x, y);
    } else {
      LeadOctet(c);
      LeadOctet(d);
      assert (p + x)[0] == p[0] && (q + y)[0] == q[0];
    }
  }

  /** The first octet tells how many octets follow. */
  lemma LeadOctet(c: nat)
    requires IsScalar(c)
    ensures var p := EncodeScalar(c);
            && (|p| == 1 <==> p[0] < 0x80) && (|p| == 2 <==> 0x80 <= p[0] < 0xE0)
            && (|p| == 3 <==> 0xE0 <= p[0] < 0xF0) && (|p| == 4 <==> 0xF0 <= p[0])
  {
  }

  lemma SameWidth(c: nat, d: nat)
    requires IsScalar(c) && IsScalar(d) && c < d && |EncodeScalar(c)| == |EncodeScalar(d)|
    ensures Less(EncodeScalar(c), EncodeScalar(d))
  {
    var p, q := EncodeScalar(c), EncodeScalar(d);
    Digits(c, d);
    if c / 64 < d / 64 { Digits(c / 64, d / 64); }
    if c / 4096 < d / 4096 { Digits(c / 4096, d / 4096); }
    if |p| == 2 { TwoLess(p, q); } else if |p| == 3 { ThreeLess(p, q); } else if |p| == 4 { FourLess(p, q); }
  }

  lemma Digits(c: nat, d: nat)
    requires c < d
    ensures c / 64 < d / 64 || (c / 64 == d / 64 && c % 64 < d % 64)
    ensures c / 64 / 64 == c / 4096 && c / 4096 / 64 == c / 262144
    ensures d / 64 / 64 == d / 4096 && d / 4096 / 64 == d / 262144
  {
  }

  lemma TwoLess(p: seq<nat>, q: seq<nat>)
    requires |p| == |q| == 2 && (p[0] < q[0] || (p[0] == q[0] && p[1] < q[1]))
    ensures Less(p, q)
  {
  }

  lemma ThreeLess(p: seq<nat>, q: seq<nat>)
    requires |p| == |q| == 3
    requires p[0] < q[0] || (p[0] == q[0] && (p[1] < q[1] || (p[1] == q[1] && p[2] < q[2])))
    ensures Less(p, q)
  {
    if p[0] == q[0] { TwoLess(p[1..], q[1..]); }
  }

  lemma FourLess(p: seq<nat>, q: seq<nat>)
    requires |p| == |q| == 4
    requires || p[0] < q[0]
             || (p[0] == q[0] && (p[1] < q[1] || (p[1] == q[1] && (p[2] < q[2] || (p[2] == q[2] && p[3] < q[3])))))
    ensures Less(p, q)
  {
    if p[0] == q[0] { ThreeLess(p[1..], q[1..]); }
  }

  /** The order-preservation fact of section 1 of RFC 3629. */
  lemma {:induction false} ByteOrderIsScalarOrder(cs: seq<nat>, ds: seq<nat>)
    requires forall i :: 0 <= i < |cs| ==> IsScalar(cs[i])
    requires forall i :: 0 <= i < |ds| ==> IsScalar(ds[i])
    ensures Less(Encode(cs), Encode(ds)) <==> Less(cs, ds)
    ensures Encode(cs) == Encode(ds) <==> cs == ds
  {
    if cs != [] && ds != [] {
      if cs[0] == ds[0] {
        ByteOrderIsScalarOrder(cs[1..], ds[1..]);
        LessAfterPrefix(EncodeScalar(cs[0]), Encode(cs[1..]), Encode(ds[1..]));
        assert cs == [cs[0]] + cs[1..] && ds == [ds[0]] + ds[1..];
        SamePrefix(EncodeScalar(cs[0]), Encode(cs[1..]), Encode(ds[1..]));
      } else if cs[0] < ds[0] {
        SmallerScalar(cs[0], ds[0], Encode(cs[1..]), Encode(ds[1..]));
        Exclusive(Encode(cs), Encode(ds));
      } else {
        SmallerScalar(ds[0], cs[0], Encode(ds[1..]), Encode(cs[1..]));
        Exclusive(Encode(ds), Encode(cs));
      }
    }
  }

  lemma SamePrefix(p: seq<nat>, x: seq<nat>, y: seq<nat>)
    ensures p + x == p + y <==> x == y
  {
    assert (p + x)[|p|..] == x && (p + y)[|p|..] == y;
  }

  lemma Exclusive(a: seq<nat>, b: seq<nat>)
    requires Less(a, b)
    ensures !Less(b, a) && a != b
  {
    LessIrreflexive(a);
    if Less(b, a) { LessTransitive(a, b, a); }
  }

  // ---- The comparison

  /** What the comparison sees of an id. */
  function Key(s: seq<Unit>): (cs: seq<nat>)
    ensures forall i :: 0 <= i < |cs| ==> IsScalar(cs[i])
  {
    Scalars(Trim(s))
  }

  /** The byte loop, with the lengths deciding after a common prefix. */
  method CompareBytes(left: seq<nat>, right: seq<nat>) returns (r: int)
    ensures r == -1 || r == 0 || r == 1
    ensures r == -1 <==> Less(left, right)
    ensures r == 0 <==> left == right
    ensures r == 1 <==> Less(right, left)
  {
    var length := if |left| < |right| then |left| else |right|;
    for index := 0 to length
      invariant left[..index] == right[..index]
    {
      DecidedAt(left, right, index);
      DecidedAt(right, left, index);
      if left[index] < right[index] {
        Exclusive(left, right);
        return -1;
      }
      if left[index] > right[index] {
        Exclusive(right, left);
        return 1;
      }
    }
    if |left| < |right| {
      PrefixLess(left, right);
      Exclusive(left, right);
      return -1;
    }
    if |left| > |right| {
      PrefixLess(right, left);
      Exclusive(right, left);
      return 1;
    }
    assert left == left[..length] && right == right[..length];
    LessIrreflexive(left);
    return 0;
  }

  lemma DecidedAt(a: seq<nat>, b: seq<nat>, k: nat)
    requires k < |a| && k < |b| && a[..k] == b[..k]
    ensures a[k] < b[k] ==> Less(a, b)
  {
    assert a == a[..k] + a[k..] && b == b[..k] + b[k..];
    LessAfterPrefix(a[..k], a[k..], b[k..]);
  }

  lemma PrefixLess(a: seq<nat>, b: seq<nat>)
    requires |a| < |b| && a == b[..|a|]
    ensures Less(a, b)
  {
    assert a == a + [] && b == a + b[|a|..];
    LessAfterPrefix(a, [], b[|a|..]);
  }

  /** The comparison is lexicographic order on the scalar values of the trimmed ids. */
  method Compare(a: seq<Unit>, b: seq<Unit>) returns (r: Result<int>)
    ensures r.Ok? <==> IsId(a) && IsId(b)
    ensures r.Ok? ==> r.value == -1 || r.value == 0 || r.value == 1
    ensures r.Ok? ==> (r.value == -1 <==> Less(Key(a), Key(b)))
    ensures r.Ok? ==> (r.value == 0 <==> Key(a) == Key(b))
    ensures r.Ok? ==> (r.value == 1 <==> Less(Key(b), Key(a)))
  {
    if !IsId(a) || !IsId(b) { return Refused("invalid event id"); }
    var left, right := Encode(Key(a)), Encode(Key(b));
    ByteOrderIsScalarOrder(Key(a), Key(b));
    ByteOrderIsScalarOrder(Key(b), Key(a));
    var order := CompareBytes(left, right);
    return Ok(order);
  }

  /** It is a total preorder on ids: antisymmetric in sign, transitive and total. */
  lemma KeysTotallyOrdered(a: seq<Unit>, b: seq<Unit>, c: seq<Unit>)
    ensures Less(Key(a), Key(b)) || Key(a) == Key(b) || Less(Key(b), Key(a))
    ensures Less(Key(a), Key(b)) ==> !Less(Key(b), Key(a)) && Key(a) != Key(b)
    ensures Less(Key(a), Key(b)) && Less(Key(b), Key(c)) ==> Less(Key(a), Key(c))
  {
    LessTotal(Key(a), Key(b));
    if Less(Key(a), Key(b)) {
      Exclusive(Key(a), Key(b));
      if Less(Key(b), Key(c)) { LessTransitive(Key(a), Key(b), Key(c)); }
    }
  }

  // ---- When zero means equal

  /** Two different ids that compare equal: an unpaired surrogate and U+FFFD. */
  lemma UnpairedSurrogateComparesEqual()
    ensures var a: seq<Unit>, b: seq<Unit> := [0xD800], [0xFFFD];
            IsId(a) && IsId(b) && Trim(a) != Trim(b) && Key(a) == Key(b)
  {
    var a: seq<Unit>, b: seq<Unit> := [0xD800], [0xFFFD];
    assert Trim(a) == a && Trim(b) == b;
    assert Scalars(a) == [REPLACEMENT] + Scalars(a[1..]);
    assert Scalars(b) == [b[0]] + Scalars(b[1..]);
  }

  lemma {:induction false} ScalarsDetermineUnits(a: seq<Unit>, b: seq<Unit>)
    requires Scalars(a) == Scalars(b) && REPLACEMENT !in Scalars(a)
    ensures a == b
  {
    if a != [] && b != [] {
      var cs := Scalars(a);
      assert cs[0] != REPLACEMENT;
      var m, n := if StartsPair(a) then 2 else 1, if StartsPair(b) then 2 else 1;
      assert Scalars(a)[1..] == Scalars(a[m..]) && Scalars(b)[1..] == Scalars(b[n..]);
      ScalarsDetermineUnits(a[m..], b[n..]);
      assert a[..m] == b[..n];
      assert a == a[..m] + a[m..] && b == b[..n] + b[n..];
    }
  }

  predicate HasUnpaired(s: seq<Unit>) {
    s != [] && if StartsPair(s) then HasUnpaired(s[2..]) else IsSurrogate(s[0]) || HasUnpaired(s[1..])
  }

  /** The first unpaired surrogate replaced by U+FFFD. */
  function Mend(s: seq<Unit>): (r: seq<Unit>)
    requires HasUnpaired(s)
  {
    if StartsPair(s) then s[..2] + Mend(s[2..])
    else if IsSurrogate(s[0]) then [0xFFFD] + s[1..]
    else [s[0]] + Mend(s[1..])
  }

  /** The first U+FFFD replaced by an unpaired surrogate. */
  function Break(s: seq<Unit>): (r: seq<Unit>)
    requires !HasUnpaired(s) && 0xFFFD in s
  {
    if StartsPair(s) then s[..2] + Break(s[2..])
    else if s[0] == 0xFFFD then [0xD800] + s[1..]
    else [s[0]] + Break(s[1..])
  }

  lemma {:induction false} MendTwin(s: seq<Unit>)
    requires HasUnpaired(s)
    ensures Scalars(Mend(s)) == Scalars(s) && Mend(s) != s && SameSpaces(Mend(s), s)
  {
    var r := Mend(s);
    if StartsPair(s) {
      MendTwin(s[2..]);
      assert r[2..] == Mend(s[2..]) && r[..2] == s[..2] && StartsPair(r);
    } else if IsSurrogate(s[0]) {
      assert r[1..] == s[1..];
    } else {
      MendTwin(s[1..]);
      assert r[1..] == Mend(s[1..]);
    }
  }

  lemma {:induction false} BreakTwin(s: seq<Unit>)
    requires !HasUnpaired(s) && 0xFFFD in s
    ensures Scalars(Break(s)) == Scalars(s) && Break(s) != s && SameSpaces(Break(s), s)
  {
    var r := Break(s);
    if StartsPair(s) {
      assert s == s[..2] + s[2..] && 0xFFFD in s[2..];
      BreakTwin(s[2..]);
      assert r[2..] == Break(s[2..]) && r[..2] == s[..2] && StartsPair(r);
    } else if s[0] == 0xFFFD {
      assert r[1..] == s[1..];
      assert !StartsPair(r);
    } else {
      BreakTwin(s[1..]);
      assert r[1..] == Break(s[1..]);
    }
  }

  /** Same length, and blank in the same places. */
  predicate SameSpaces(a: seq<Unit>, b: seq<Unit>) {
    |a| == |b| && forall i :: 0 <= i < |a| ==> IsSpace(a[i]) == IsSpace(b[i])
  }

  lemma {:induction false} ReplacementSource(s: seq<Unit>)
    requires REPLACEMENT in Scalars(s) && !HasUnpaired(s)
    ensures 0xFFFD in s
  {
    if StartsPair(s) {
      ReplacementSource(s[2..]);
    } else if s[0] != 0xFFFD {
      ReplacementSource(s[1..]);
    }
  }

  predicate Trimmed(s: seq<Unit>) {
    s != [] ==> !IsSpace(s[0]) && !IsSpace(s[|s| - 1])
  }

  /** An id with U+FFFD among its scalar values has a different twin that compares equal. */
  lemma Twin(a: seq<Unit>) returns (b: seq<Unit>)
    requires Trimmed(a) && 1 <= |a| <= MAX_ID_UNITS && REPLACEMENT in Scalars(a)
    ensures IsId(b) && Trim(b) == b && Scalars(b) == Scalars(a) && b != a
  {
    if HasUnpaired(a) {
      MendTwin(a);
      b := Mend(a);
    } else {
      ReplacementSource(a);
      BreakTwin(a);
      b := Break(a);
    }
    AlreadyTrimmed(b);
  }

  lemma AlreadyTrimmed(a: seq<Unit>)
    requires Trimmed(a)
    ensures Trim(a) == a
  {
  }

  /** Exactly when a comparison result of zero identifies a trimmed id: when U+FFFD is not
      among its scalar values. */
  lemma ZeroIdentifiesExactly(a: seq<Unit>)
    requires Trimmed(a) && 1 <= |a| <= MAX_ID_UNITS
    ensures (forall b :: IsId(b) && Key(b) == Key(a) ==> Trim(b) == a) <==> REPLACEMENT !in Key(a)
  {
    AlreadyTrimmed(a);
    if REPLACEMENT in Key(a) {
      var b := Twin(a);
      assert Key(b) == Key(a);
    } else {
      forall b | IsId(b) && Key(b) == Key(a) ensures Trim(b) == a {
        ScalarsDetermineUnits(a, Trim(b));
      }
    }
  }
}
