/** Lexicographic order on byte strings, and UUIDs as text. */
module Lexicographic {
  import opened Items

  /** bytes.Compare(a, b) < 0, and the order of Go strings given by their bytes. */
  predicate Less(a: seq<int>, b: seq<int>) {
    b != [] && (a == [] || a[0] < b[0] || (a[0] == b[0] && Less(a[1..], b[1..])))
  }

  lemma {:induction false} LessTotal(a: seq<int>, b: seq<int>)
    ensures a != b ==> Less(a, b) || Less(b, a)
    ensures !(Less(a, b) && Less(b, a))
    ensures !Less(a, a)
    decreases |a|
  {
    if a != [] && b != [] && a[0] == b[0] {
      LessTotal(a[1..], b[1..]);
      assert a == [a[0]] + a[1..] && b == [b[0]] + b[1..];
    }
    if a != [] { LessIrreflexive(a); }
  }

  lemma {:induction false} LessIrreflexive(a: seq<int>)
    ensures !Less(a, a)
  {
    if a == [] {
    } else {
      LessIrreflexive(a[1..]);
    }
  }

  lemma {:induction false} LessTransitive(a: seq<int>, b: seq<int>, c: seq<int>)
    requires Less(a, b) && Less(b, c)
    ensures Less(a, c)
    decreases |a|
  {
    if a != [] && a[0] == b[0] == c[0] {
      LessTransitive(a[1..], b[1..], c[1..]);
    }
  }

  /** Fixed-width fields compare one after the other. */
  lemma {:induction false} LessOfFields(p: seq<int>, p': seq<int>, q: seq<int>, q': seq<int>)
    requires |p| == |p'|
    ensures Less(p + q, p' + q') <==> Less(p, p') || (p == p' && Less(q, q'))
  {
    if p == [] {
      assert p + q == q && p' + q' == q';
    } else {
      assert (p + q)[1..] == p[1..] + q && (p' + q')[1..] == p'[1..] + q';
      LessOfFields(p[1..], p'[1..], q, q');
      assert p == [p[0]] + p[1..] && p' == [p'[0]] + p'[1..];
      if p[0] != p'[0] { assert p != p'; }
    }
  }

  /** The first difference, after `n` equal elements: `a` ends there or has the smaller element. */
  predicate SmallerAt(a: seq<int>, b: seq<int>, n: nat) {
    && n <= |a| && n < |b| && a[..n] == b[..n] && (n == |a| || a[n] < b[n])
  }

  /** The order is decided by the first difference. */
  lemma {:induction false} LessExactly(a: seq<int>, b: seq<int>)
    ensures Less(a, b) <==> exists n: nat :: SmallerAt(a, b, n)
  {
    if a == [] || b == [] || a[0] != b[0] {
      if Less(a, b) { assert SmallerAt(a, b, 0); }
      forall n: nat | SmallerAt(a, b, n) ensures Less(a, b) {
        SameBeforeDifference(a, b, n);
      }
    } else {
      LessExactly(a[1..], b[1..]);
      forall n: nat ensures SmallerAt(a[1..], b[1..], n) ==> SmallerAt(a, b, n + 1) {
        LaterDifference(a, b, n);
      }
      forall n: nat | SmallerAt(a, b, n) ensures Less(a, b) {
        LaterDifference(a, b, n - 1);
      }
    }
  }

  lemma SameBeforeDifference(a: seq<int>, b: seq<int>, n: nat)
    ensures SmallerAt(a, b, n) && n > 0 ==> a != [] && b != [] && a[0] == b[0]
  {
    if SmallerAt(a, b, n) && n > 0 { assert a[0] == a[..n][0] == b[..n][0] == b[0]; }
  }

  lemma LaterDifference(a: seq<int>, b: seq<int>, n: nat)
    requires a != [] && b != [] && a[0] == b[0]
    ensures SmallerAt(a[1..], b[1..], n) <==> SmallerAt(a, b, n + 1)
  {
    if n + 1 <= |a| && n + 1 < |b| {
      assert a[..n + 1] == [a[0]] + a[1..][..n] && b[..n + 1] == [b[0]] + b[1..][..n];
    }
  }

  // ----- UUID text -----

  /** The character code of a hexadecimal digit, lower case. */
  function HexCode(n: int): int {
    if n < 10 then 48 + n else 87 + n
  }

  function Hex(bytes: seq<Byte>): seq<int> {
    if bytes == [] then [] else [HexCode(bytes[0] / 16), HexCode(bytes[0] % 16)] + Hex(bytes[1..])
  }

  const DASH := 45

  /** uuid.UUID.String as character codes: groups of 4, 2, 2, 2 and 6 bytes in hexadecimal. */
  function UuidText(u: Uuid): seq<int> {
    Hex(u[..4]) + ([DASH] + (Hex(u[4..6]) + ([DASH] + (Hex(u[6..8])
      + ([DASH] + (Hex(u[8..10]) + ([DASH] + Hex(u[10..]))))))))
  }

  lemma {:induction false} HexWidth(a: seq<Byte>)
    ensures |Hex(a)| == 2 * |a|
  {
    if a == [] {
    } else {
      HexWidth(a[1..]);
    }
  }

  lemma LessOfPairs(a: int, b: int, c: int, d: int)
    ensures Less([a, b], [c, d]) <==> a < c || (a == c && b < d)
  {
    assert [a, b][1..] == [b] && [c, d][1..] == [d];
    assert Less([b], [d]) <==> b < d by {
      assert [b][1..] == [] && [d][1..] == [];
    }
  }

  lemma HexDigitsCompare(x: Byte, y: Byte)
    ensures Less([HexCode(x / 16), HexCode(x % 16)], [HexCode(y / 16), HexCode(y % 16)]) <==> x < y
    ensures [HexCode(x / 16), HexCode(x % 16)] == [HexCode(y / 16), HexCode(y % 16)] ==> x == y
  {
    var p, q := [HexCode(x / 16), HexCode(x % 16)], [HexCode(y / 16), HexCode(y % 16)];
    LessOfPairs(p[0], p[1], q[0], q[1]);
    assert p == [p[0], p[1]] && q == [q[0], q[1]];
  }

  lemma {:induction false} HexKeepsOrder(a: seq<Byte>, b: seq<Byte>)
    requires |a| == |b|
    ensures Less(Hex(a), Hex(b)) <==> Less(a, b)
    ensures Hex(a) == Hex(b) <==> a == b
  {
    if a == [] {
    } else {
      var p, q := [HexCode(a[0] / 16), HexCode(a[0] % 16)], [HexCode(b[0] / 16), HexCode(b[0] % 16)];
      HexDigitsCompare(a[0], b[0]);
      HexKeepsOrder(a[1..], b[1..]);
      LessOfFields(p, q, Hex(a[1..]), Hex(b[1..]));
      assert a == [a[0]] + a[1..] && b == [b[0]] + b[1..];
      if Hex(a) == Hex(b) {
        assert p == Hex(a)[..2] && q == Hex(b)[..2];
        assert Hex(a[1..]) == Hex(a)[2..] && Hex(b[1..]) == Hex(b)[2..];
      }
    }
  }

  /** One more group in front keeps agreement between text order and byte order. */
  lemma GroupKeepsOrder(a: seq<Byte>, b: seq<Byte>, rest: seq<Byte>, rest': seq<Byte>, text: seq<int>, text': seq<int>)
    requires |a| == |b|
    requires Less(text, text') <==> Less(rest, rest')
    ensures Less(Hex(a) + ([DASH] + text), Hex(b) + ([DASH] + text')) <==> Less(a + rest, b + rest')
  {
    HexWidth(a);
    HexWidth(b);
    HexKeepsOrder(a, b);
    LessOfFields(Hex(a), Hex(b), [DASH] + text, [DASH] + text');
    LessOfFields([DASH], [DASH], text, text');
    LessIrreflexive([DASH]);
    LessOfFields(a, b, rest, rest');
  }

  /** Canonical UUID text orders UUIDs exactly as their bytes do. */
  lemma TextOrderIsByteOrder(a: Uuid, b: Uuid)
    ensures Less(UuidText(a), UuidText(b)) <==> Less(a, b)
  {
    var ta, tb := Hex(a[10..]), Hex(b[10..]);
    HexKeepsOrder(a[10..], b[10..]);
    GroupKeepsOrder(a[8..10], b[8..10], a[10..], b[10..], ta, tb);
    ta, tb := Hex(a[8..10]) + ([DASH] + ta), Hex(b[8..10]) + ([DASH] + tb);
    GroupKeepsOrder(a[6..8], b[6..8], a[8..10] + a[10..], b[8..10] + b[10..], ta, tb);
    ta, tb := Hex(a[6..8]) + ([DASH] + ta), Hex(b[6..8]) + ([DASH] + tb);
    GroupKeepsOrder(a[4..6], b[4..6], a[6..8] + (a[8..10] + a[10..]), b[6..8] + (b[8..10] + b[10..]), ta, tb);
    ta, tb := Hex(a[4..6]) + ([DASH] + ta), Hex(b[4..6]) + ([DASH] + tb);
    var ra, rb := a[4..6] + (a[6..8] + (a[8..10] + a[10..])), b[4..6] + (b[6..8] + (b[8..10] + b[10..]));
    GroupKeepsOrder(a[..4], b[..4], ra, rb, ta, tb);
    assert a[..4] + ra == a && b[..4] + rb == b;
  }
}
