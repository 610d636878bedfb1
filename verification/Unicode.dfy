/**
 * Code points and their encodings (section 3 of RFC 3629): the meaning of the
 * byte-level tests of GoStrings.
 */
module Unicode {
  import opened GoStrings

  predicate IsScalar(v: int) {
    0 <= v < 0xD800 || 0xE000 <= v < 0x110000
  }

  /** The UTF-8 form of a code point. */
  function Encoded(v: int): (w: string)
    requires IsScalar(v)
    ensures |w| > 0
  {
    if v < 0x80 then [v as char]
    else if v < 0x800 then [(0xC0 + v / 64) as char, (0x80 + v % 64) as char]
    else if v < 0x10000 then [(0xE0 + v / 4096) as char, (0x80 + v / 64 % 64) as char, (0x80 + v % 64) as char]
    else [(0xF0 + v / 262144) as char, (0x80 + v / 4096 % 64) as char, (0x80 + v / 64 % 64) as char,
          (0x80 + v % 64) as char]
  }

  predicate AllScalar(vs: seq<int>) {
    forall i :: 0 <= i < |vs| ==> IsScalar(vs[i])
  }

  /** The bytes of a text given by its code points. */
  function Text(vs: seq<int>): string
    requires AllScalar(vs)
  {
    if vs == [] then "" else Encoded(vs[0]) + Text(vs[1..])
  }

  // ----- Runes are encodings -----

  /** The code point at the front of a string that starts with a rune. */
  function CodePoint(s: string): int
    requires RuneWidth(s) > 0
  {
    match RuneWidth(s)
    case 1 => s[0] as int
    case 2 => (s[0] as int - 0xC0) * 64 + (s[1] as int - 0x80)
    case 3 => (s[0] as int - 0xE0) * 4096 + (s[1] as int - 0x80) * 64 + (s[2] as int - 0x80)
    case _ =>
      (s[0] as int - 0xF0) * 262144 + (s[1] as int - 0x80) * 4096 + (s[2] as int - 0x80) * 64 + (s[3] as int - 0x80)
  }

  lemma ShortRuneIsEncoded(s: string)
    requires RuneWidth(s) == 1 || RuneWidth(s) == 2
    ensures IsScalar(CodePoint(s)) && Encoded(CodePoint(s)) == s[..RuneWidth(s)]
  {
  }

  /** Dividing by 64 takes one continuation byte off. */
  lemma LastSix(high: nat, low: nat)
    requires low < 64
    ensures (high * 64 + low) / 64 == high && (high * 64 + low) % 64 == low
  {
  }

  lemma ThreeByteRuneIsEncoded(s: string)
    requires RuneWidth(s) == 3
    ensures IsScalar(CodePoint(s)) && Encoded(CodePoint(s)) == s[..3]
  {
    var a, b, c := s[0] as int - 0xE0, s[1] as int - 0x80, s[2] as int - 0x80;
    LastSix(a * 64 + b, c);
    LastSix(a, b);
    assert CodePoint(s) == (a * 64 + b) * 64 + c;
    assert CodePoint(s) / 4096 == a;
  }

  lemma FourByteRuneIsEncoded(s: string)
    requires RuneWidth(s) == 4
    ensures IsScalar(CodePoint(s)) && Encoded(CodePoint(s)) == s[..4]
  {
    var a, b, c, d := s[0] as int - 0xF0, s[1] as int - 0x80, s[2] as int - 0x80, s[3] as int - 0x80;
    LastSix((a * 64 + b) * 64 + c, d);
    LastSix(a * 64 + b, c);
    LastSix(a, b);
    assert CodePoint(s) == ((a * 64 + b) * 64 + c) * 64 + d;
    assert CodePoint(s) / 4096 == a * 64 + b && CodePoint(s) / 262144 == a;
  }

  lemma RuneIsEncoded(s: string)
    requires RuneWidth(s) > 0
    ensures IsScalar(CodePoint(s)) && Encoded(CodePoint(s)) == s[..RuneWidth(s)]
  {
    if RuneWidth(s) == 4 {
      FourByteRuneIsEncoded(s);
    } else if RuneWidth(s) == 3 {
      ThreeByteRuneIsEncoded(s);
    } else {
      ShortRuneIsEncoded(s);
    }
  }

  lemma ShortEncodedIsRune(v: int, rest: string)
    requires 0 <= v < 0x800
    ensures RuneWidth(Encoded(v) + rest) == |Encoded(v)|
  {
  }

  lemma LongEncodedIsRune(v: int, rest: string)
    requires IsScalar(v) && 0x800 <= v < 0x10000
    ensures RuneWidth(Encoded(v) + rest) == |Encoded(v)|
  {
    assert v / 64 == v / 4096 * 64 + v / 64 % 64;
  }

  lemma LongestEncodedIsRune(v: int, rest: string)
    requires 0x10000 <= v < 0x110000
    ensures RuneWidth(Encoded(v) + rest) == |Encoded(v)|
  {
    assert v / 4096 == v / 262144 * 64 + v / 4096 % 64;
  }

  lemma EncodedIsRune(v: int, rest: string)
    requires IsScalar(v)
    ensures RuneWidth(Encoded(v) + rest) == |Encoded(v)|
  {
    if v < 0x800 {
      ShortEncodedIsRune(v, rest);
    } else if v < 0x10000 {
      LongEncodedIsRune(v, rest);
    } else {
      LongestEncodedIsRune(v, rest);
    }
  }

  lemma EncodedInFront(v: int, rest: string)
    requires IsScalar(v)
    ensures var s := Encoded(v) + rest;
            s != "" && RuneWidth(s) == |Encoded(v)| && s[..RuneWidth(s)] == Encoded(v) && s[RuneWidth(s)..] == rest
  {
    EncodedIsRune(v, rest);
  }

  /** Every sequence of code points makes a valid text, with as many runes as code points. */
  lemma {:induction false} TextIsUtf8(vs: seq<int>)
    requires AllScalar(vs)
    ensures ValidUtf8(Text(vs)) && RuneCount(Text(vs)) == |vs|
  {
    if vs == [] {
    } else {
      TextIsUtf8(vs[1..]);
      EncodedInFront(vs[0], Text(vs[1..]));
    }
  }

  lemma TextGrows(s: string, n: nat, v: int, vs: seq<int>)
    requires n <= |s| && IsScalar(v) && AllScalar(vs) && Encoded(v) == s[..n] && Text(vs) == s[n..]
    ensures Text([v] + vs) == s
  {
    assert ([v] + vs)[1..] == vs;
    assert s == s[..n] + s[n..];
  }

  lemma FirstRune(s: string) returns (n: nat, v: int)
    requires s != "" && ValidUtf8(s)
    ensures 0 < n <= |s| && IsScalar(v) && Encoded(v) == s[..n] && ValidUtf8(s[n..])
  {
    n, v := RuneWidth(s), CodePoint(s);
    RuneIsEncoded(s);
  }

  /** And every valid text is made of code points. */
  lemma {:induction false} Utf8IsText(s: string) returns (vs: seq<int>)
    requires ValidUtf8(s)
    ensures AllScalar(vs) && Text(vs) == s
    decreases |s|
  {
    if s == "" {
      vs := [];
    } else {
      var n, v := FirstRune(s);
      var rest := Utf8IsText(s[n..]);
      vs := [v] + rest;
      TextGrows(s, n, v, rest);
    }
  }

  // ----- Classes of code points -----

  /** The code points with the property White_Space. */
  predicate IsSpace(v: int) {
    || 0x09 <= v <= 0x0D || v == 0x20 || v == 0x85 || v == 0xA0 || v == 0x1680
    || 0x2000 <= v <= 0x200A || v == 0x2028 || v == 0x2029 || v == 0x202F || v == 0x205F || v == 0x3000
  }

  /** The code points of the category Cc. */
  predicate IsControl(v: int) {
    0 <= v < 0x20 || 0x7F <= v < 0xA0
  }

  predicate NoControl(vs: seq<int>) {
    forall i :: 0 <= i < |vs| ==> !IsControl(vs[i])
  }

  lemma SpaceRunes(v: int)
    requires IsScalar(v)
    ensures IsSpaceRune(Encoded(v)) <==> IsSpace(v)
  {
  }

  /** There are no other space runes than encodings of spaces. */
  lemma SpaceRuneIsEncoded(w: string) returns (v: int)
    requires IsSpaceRune(w)
    ensures IsScalar(v) && IsSpace(v) && Encoded(v) == w
  {
    v := CodePoint(w);
    RuneIsEncoded(w);
    SpaceRunes(v);
  }

  lemma ControlRunes(v: int)
    requires IsScalar(v)
    ensures IsControlRune(Encoded(v)) <==> IsControl(v)
  {
  }

  /** A text is free of control characters exactly when none of its code points is one. */
  lemma {:induction false} ControlFreeText(vs: seq<int>)
    requires AllScalar(vs)
    ensures ControlFree(Text(vs)) <==> NoControl(vs)
  {
    if vs == [] {
    } else {
      ControlFreeText(vs[1..]);
      EncodedInFront(vs[0], Text(vs[1..]));
      ControlRunes(vs[0]);
      AllOfSeq(vs, v => !IsControl(v));
    }
  }

  lemma AllOfSeq(vs: seq<int>, p: int -> bool)
    requires vs != []
    ensures (forall i :: 0 <= i < |vs| ==> p(vs[i])) <==> p(vs[0]) && forall i :: 0 <= i < |vs[1..]| ==> p(vs[1..][i])
  {
    if forall i :: 0 <= i < |vs[1..]| ==> p(vs[1..][i]) {
      forall i | 0 < i < |vs| ensures p(vs[i]) { assert vs[i] == vs[1..][i - 1]; }
    }
  }
}
