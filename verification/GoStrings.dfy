/**
 * Go strings, held one char per byte, and the parts of the unicode and strings
 * packages that the modelled code calls on them.
 */
module GoStrings {

  function Bytes(s: string): (bytes: seq<int>)
    ensures |bytes| == |s|
  {
    seq(|s|, i requires 0 <= i < |s| => s[i] as int)
  }

  lemma BytesInjective(a: string, b: string)
    ensures Bytes(a) == Bytes(b) ==> a == b
  {
    if Bytes(a) == Bytes(b) {
      forall i | 0 <= i < |a| ensures |b| == |a| && a[i] == b[i] {
        assert Bytes(a)[i] == Bytes(b)[i];
      }
    }
  }

  predicate Between(c: char, low: int, high: int) {
    low <= c as int <= high
  }

  predicate Continues(c: char) {
    Between(c, 0x80, 0xBF)
  }

  /** The width of the well-formed UTF-8 sequence at the front, or 0 when there is none. */
  function RuneWidth(s: string): (w: nat)
    ensures w <= |s|
  {
    if |s| == 0 then 0
    else if Between(s[0], 0, 0x7F) then 1
    else if |s| >= 2 && Between(s[0], 0xC2, 0xDF) && Continues(s[1]) then 2
    else if |s| >= 3 && Between(s[0], 0xE0, 0xEF) && Continues(s[1]) && Continues(s[2])
            && (s[0] as int == 0xE0 ==> Between(s[1], 0xA0, 0xBF))
            && (s[0] as int == 0xED ==> Between(s[1], 0x80, 0x9F)) then 3
    else if |s| >= 4 && Between(s[0], 0xF0, 0xF4) && Continues(s[1]) && Continues(s[2]) && Continues(s[3])
            && (s[0] as int == 0xF0 ==> Between(s[1], 0x90, 0xBF))
            && (s[0] as int == 0xF4 ==> Between(s[1], 0x80, 0x8F)) then 4
    else 0
  }

  predicate ValidUtf8(s: string)
    decreases |s|
  {
    s == "" || (RuneWidth(s) > 0 && ValidUtf8(s[RuneWidth(s)..]))
  }

  /** utf8.RuneCountInString: a byte that starts no well-formed sequence counts as one rune. */
  function RuneCount(s: string): nat
    decreases |s|
  {
    if s == "" then 0
    else if RuneWidth(s) == 0 then 1 + RuneCount(s[1..])
    else 1 + RuneCount(s[RuneWidth(s)..])
  }

  /** The encoding of a rune that unicode.IsSpace accepts. */
  predicate IsSpaceRune(w: string) {
    (|w| == 1 && (Between(w[0], 0x09, 0x0D) || w[0] == ' '))
    || (|w| == 2 && w[0] as int == 0xC2 && (w[1] as int == 0x85 || w[1] as int == 0xA0))
    || (|w| == 3 && w[0] as int == 0xE1 && w[1] as int == 0x9A && w[2] as int == 0x80)
    || (|w| == 3 && w[0] as int == 0xE2 && w[1] as int == 0x80
        && (Between(w[2], 0x80, 0x8A) || Between(w[2], 0xA8, 0xA9) || w[2] as int == 0xAF))
    || (|w| == 3 && w[0] as int == 0xE2 && w[1] as int == 0x81 && w[2] as int == 0x9F)
    || (|w| == 3 && w[0] as int == 0xE3 && w[1] as int == 0x80 && w[2] as int == 0x80)
  }

  /** The encoding of a rune that unicode.IsControl accepts. */
  predicate IsControlRune(w: string) {
    (|w| == 1 && (Between(w[0], 0x00, 0x1F) || w[0] as int == 0x7F))
    || (|w| == 2 && w[0] as int == 0xC2 && Between(w[1], 0x80, 0x9F))
  }

  /** Well-formed text without control characters. */
  predicate ControlFree(s: string)
    decreases |s|
  {
    s == "" ||
    (RuneWidth(s) > 0 && !IsControlRune(s[..RuneWidth(s)]) && ControlFree(s[RuneWidth(s)..]))
  }

  lemma {:induction false} ControlFreeHasNoZero(s: string)
    requires ControlFree(s)
    ensures forall i :: 0 <= i < |s| ==> s[i] as int != 0
    decreases |s|
  {
    if s == "" {
    } else {
      var w := RuneWidth(s);
      ControlFreeHasNoZero(s[w..]);
      forall i | 0 <= i < |s| ensures s[i] as int != 0 {
        if i >= w {
          assert s[i] == s[w..][i - w];
        } else {
          FirstRuneHasNoZero(s, i);
        }
      }
    }
  }

  lemma FirstRuneHasNoZero(s: string, i: nat)
    requires i < RuneWidth(s) && !IsControlRune(s[..RuneWidth(s)])
    ensures s[i] as int != 0
  {
  }

  function LeadingSpace(s: string): (w: nat)
    ensures w <= |s| && (w > 0 ==> IsSpaceRune(s[..w]))
  {
    if |s| >= 1 && IsSpaceRune(s[..1]) then 1
    else if |s| >= 2 && IsSpaceRune(s[..2]) then 2
    else if |s| >= 3 && IsSpaceRune(s[..3]) then 3
    else 0
  }

  function TrailingSpace(s: string): (w: nat)
    ensures w <= |s| && (w > 0 ==> IsSpaceRune(s[|s| - w..]))
  {
    if |s| >= 1 && IsSpaceRune(s[|s| - 1..]) then 1
    else if |s| >= 2 && IsSpaceRune(s[|s| - 2..]) then 2
    else if |s| >= 3 && IsSpaceRune(s[|s| - 3..]) then 3
    else 0
  }

  function TrimLeft(s: string): (r: string)
    ensures LeadingSpace(r) == 0
    decreases |s|
  {
    if LeadingSpace(s) == 0 then s else TrimLeft(s[LeadingSpace(s)..])
  }

  function TrimRight(s: string): (r: string)
    ensures TrailingSpace(r) == 0 && r <= s
    decreases |s|
  {
    if TrailingSpace(s) == 0 then s else TrimRight(s[..|s| - TrailingSpace(s)])
  }

  function TrimSpace(s: string): string {
    TrimRight(TrimLeft(s))
  }

  lemma PrefixHasNoLeadingSpace(r: string, s: string)
    requires r <= s && LeadingSpace(s) == 0
    ensures LeadingSpace(r) == 0
  {
    assert |r| >= 1 ==> r[..1] == s[..1];
    assert |r| >= 2 ==> r[..2] == s[..2];
    assert |r| >= 3 ==> r[..3] == s[..3];
  }

  /** A trimmed string starts and ends with no space, so trimming again does nothing. */
  lemma TrimSpaceIdempotent(s: string)
    ensures TrimSpace(TrimSpace(s)) == TrimSpace(s)
  {
    PrefixHasNoLeadingSpace(TrimSpace(s), TrimLeft(s));
  }

  predicate Printable(c: char) {
    Between(c, 0x21, 0x7E)
  }

  lemma NoSpaceWithPrintable(w: string)
    requires w != "" && (Printable(w[0]) || Printable(w[|w| - 1]))
    ensures !IsSpaceRune(w)
  {
  }

  lemma PrintableFrontIsNoSpace(s: string)
    requires s != "" && Printable(s[0])
    ensures LeadingSpace(s) == 0
  {
    if LeadingSpace(s) > 0 { NoSpaceWithPrintable(s[..LeadingSpace(s)]); }
  }

  lemma PrintableSuffixIsNoSpace(s: string, n: nat)
    requires 0 < n <= |s| && Printable(s[|s| - 1])
    ensures !IsSpaceRune(s[|s| - n..])
  {
    var w := s[|s| - n..];
    assert w[|w| - 1] == s[|s| - 1];
    NoSpaceWithPrintable(w);
  }

  lemma PrintableEndIsNoSpace(s: string)
    requires s != "" && Printable(s[|s| - 1])
    ensures TrailingSpace(s) == 0
  {
    if TrailingSpace(s) > 0 { PrintableSuffixIsNoSpace(s, TrailingSpace(s)); }
  }

  /** A string with printable ASCII at both ends is already trimmed. */
  lemma PrintableEdges(s: string)
    requires s != "" && Printable(s[0]) && Printable(s[|s| - 1])
    ensures TrimSpace(s) == s
  {
    PrintableFrontIsNoSpace(s);
    PrintableEndIsNoSpace(s);
  }
}
