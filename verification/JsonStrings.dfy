/** JSON strings as encoding/json writes them, and a reader that undoes it (section 7 of RFC 8259). */
module JsonStrings {
  import opened GoStrings
  import opened Unicode
  import opened Items

  const QUOTE := '"'
  const BACKSLASH := '\\'

  function HexDigit(n: int): (c: char)
    requires 0 <= n < 16
    ensures HexValue(c) == Some(n)
  {
    if n < 10 then ('0' as int + n) as char else ('a' as int + n - 10) as char
  }

  function HexValue(c: char): (n: Option<int>)
    ensures n.Some? ==> 0 <= n.value < 16
  {
    if '0' <= c <= '9' then Some(c as int - '0' as int)
    else if 'a' <= c <= 'f' then Some(c as int - 'a' as int + 10)
    else if 'A' <= c <= 'F' then Some(c as int - 'A' as int + 10)
    else None
  }

  /** The bytes below 0x80 that are written as they are; `<`, `>` and `&` are not. */
  predicate Plain(c: char) {
    Between(c, 0x20, 0x7F) && c != QUOTE && c != BACKSLASH && c != '<' && c != '>' && c != '&'
  }

  /** The letter of a two-character escape, if the byte has one. */
  function ShortEscape(c: char): Option<char> {
    if c == QUOTE || c == BACKSLASH then Some(c)
    else if c as int == 8 then Some('b')
    else if c as int == 12 then Some('f')
    else if c == '\n' then Some('n')
    else if c == '\r' then Some('r')
    else if c == '\t' then Some('t')
    else None
  }

  function EscapeByte(c: char): string
    requires Between(c, 0, 0x7F)
  {
    if Plain(c) then [c]
    else if ShortEscape(c).Some? then [BACKSLASH, ShortEscape(c).value]
    else [BACKSLASH, 'u', '0', '0', HexDigit(c as int / 16), HexDigit(c as int % 16)]
  }

  /** U+2028 and U+2029, which are escaped although they are legal in JSON. */
  predicate IsLineSeparator(w: string) {
    |w| == 3 && w[0] as int == 0xE2 && w[1] as int == 0x80 && Between(w[2], 0xA8, 0xA9)
  }

  predicate IsRune(w: string) {
    |w| > 0 && RuneWidth(w) == |w|
  }

  /** The encodings of the runes of a string, one by one; a byte that starts none stands alone. */
  function Runes(s: string): seq<string>
    decreases |s|
  {
    if s == "" then []
    else
      var n := if RuneWidth(s) == 0 then 1 else RuneWidth(s);
      [s[..n]] + Runes(s[n..])
  }

  function Concat(runes: seq<string>): string {
    if runes == [] then "" else runes[0] + Concat(runes[1..])
  }

  /** What is written for one rune; a byte that starts none becomes U+FFFD. */
  function EscapeRune(w: string): string {
    if !IsRune(w) then "\\ufffd"
    else if |w| == 1 then EscapeByte(w[0])
    else if IsLineSeparator(w) then [BACKSLASH, 'u', '2', '0', '2', HexDigit(w[2] as int - 0xA0)]
    else w
  }

  function EscapeRunes(runes: seq<string>): string {
    if runes == [] then "" else EscapeRune(runes[0]) + EscapeRunes(runes[1..])
  }

  function Quoted(s: string): string {
    [QUOTE] + EscapeRunes(Runes(s)) + [QUOTE]
  }

  /** How the bytes that are not written as they are come out. */
  lemma EscapesAre()
    ensures EscapeByte('<') == "\\u003c" && EscapeByte('>') == "\\u003e" && EscapeByte('&') == "\\u0026"
    ensures EscapeByte('\n') == "\\n" && EscapeByte('\r') == "\\r" && EscapeByte('\t') == "\\t"
    ensures EscapeByte(8 as char) == "\\b" && EscapeByte(12 as char) == "\\f"
    ensures EscapeByte('\"') == "\\\"" && EscapeByte('\\') == "\\\\"
    ensures EscapeByte(0 as char) == "\\u0000" && EscapeByte(31 as char) == "\\u001f"
    ensures forall c :: 0x20 <= c as int < 0x80 && c !in "<>&\"\\" ==> EscapeByte(c) == [c]
  {
  }

  /** Text of such plain bytes only is written as it is, in quotes. */
  lemma {:induction false} PlainIsQuotedAsIs(s: string)
    requires forall i :: 0 <= i < |s| ==> Plain(s[i])
    ensures EscapeRunes(Runes(s)) == s
  {
    if s == "" {
    } else {
      assert Plain(s[0]) && RuneWidth(s) == 1;
      PlainIsQuotedAsIs(s[1..]);
      assert Runes(s) == [s[..1]] + Runes(s[1..]);
      assert EscapeRune(s[..1]) == s[..1];
    }
  }

  lemma {:induction false} RunesMakeTheString(s: string)
    ensures Concat(Runes(s)) == s
    decreases |s|
  {
    if s == "" {
    } else {
      var n := if RuneWidth(s) == 0 then 1 else RuneWidth(s);
      RunesMakeTheString(s[n..]);
      ConcatSplit(s, n, Runes(s[n..]));
    }
  }

  lemma ConcatSplit(s: string, n: nat, runes: seq<string>)
    requires n <= |s| && Concat(runes) == s[n..]
    ensures Concat([s[..n]] + runes) == s
  {
    assert ([s[..n]] + runes)[1..] == runes;
    assert s[..n] + s[n..] == s;
  }

  predicate AllRunes(runes: seq<string>) {
    forall i :: 0 <= i < |runes| ==> IsRune(runes[i])
  }

  lemma {:induction false} RunesOfValid(s: string)
    requires ValidUtf8(s)
    ensures AllRunes(Runes(s))
    decreases |s|
  {
    if s == "" {
    } else {
      FrontRune(s);
      AllRunesPrepend(s[..RuneWidth(s)], s[RuneWidth(s)..]);
    }
  }

  lemma {:induction false} AllRunesPrepend(w: string, tail: string)
    requires IsRune(w) && ValidUtf8(tail)
    ensures AllRunes([w] + Runes(tail))
    decreases |tail| + 1, 0
  {
    RunesOfValid(tail);
  }

  lemma FrontRune(s: string)
    requires RuneWidth(s) > 0
    ensures IsRune(s[..RuneWidth(s)])
  {
  }

  // ----- Reading -----

  /** The character a two-character escape stands for. */
  function Unescape(c: char): Option<char> {
    if c == QUOTE || c == BACKSLASH || c == '/' then Some(c)
    else if c == 'b' then Some(8 as char)
    else if c == 'f' then Some(12 as char)
    else if c == 'n' then Some('\n')
    else if c == 'r' then Some('\r')
    else if c == 't' then Some('\t')
    else None
  }

  /** The code point of four hex digits, unless it is half of a surrogate pair. */
  function FourDigits(t: string): (v: Option<int>)
    requires |t| >= 4
    ensures v.Some? ==> 0 <= v.value < 0x10000 && !(0xD800 <= v.value < 0xE000)
  {
    var a, b, c, d := HexValue(t[0]), HexValue(t[1]), HexValue(t[2]), HexValue(t[3]);
    if a.None? || b.None? || c.None? || d.None? then None
    else
      var v := 4096 * a.value + 256 * b.value + 16 * c.value + d.value;
      if 0xD800 <= v < 0xE000 then None else Some(v)
  }

  datatype Reading = Bad | Good(text: string, rest: string)

  function Prepend(w: string, r: Reading): Reading {
    if r.Good? then Good(w + r.text, r.rest) else Bad
  }

  /** Reads up to the closing quote: the text, and what follows. */
  function Read(t: string): Reading
    decreases |t|
  {
    if t == "" then Bad
    else if t[0] == QUOTE then Good("", t[1..])
    else if t[0] != BACKSLASH then Prepend([t[0]], Read(t[1..]))
    else if |t| >= 2 && Unescape(t[1]).Some? then Prepend([Unescape(t[1]).value], Read(t[2..]))
    else if |t| >= 6 && t[1] == 'u' && FourDigits(t[2..6]).Some? then
      Prepend(Encoded(FourDigits(t[2..6]).value), Read(t[6..]))
    else Bad
  }

  lemma {:induction false} ReadPlain(w: string, t: string)
    requires forall i :: 0 <= i < |w| ==> w[i] != QUOTE && w[i] != BACKSLASH
    ensures Read(w + t) == Prepend(w, Read(t))
  {
    if w == "" {
      assert w + t == t;
      if Read(t).Good? { assert "" + Read(t).text == Read(t).text; }
    } else {
      ReadPlain(w[1..], t);
      assert (w + t)[1..] == w[1..] + t;
      if Read(t).Good? { assert [w[0]] + (w[1..] + Read(t).text) == w + Read(t).text; }
    }
  }

  lemma ReadCodePoint(digits: string, t: string)
    requires |digits| == 4 && FourDigits(digits).Some?
    ensures Read([BACKSLASH, 'u'] + digits + t) == Prepend(Encoded(FourDigits(digits).value), Read(t))
  {
    var all := [BACKSLASH, 'u'] + digits + t;
    assert all[2..6] == digits && all[6..] == t;
  }

  lemma ReadShort(c: char, t: string)
    requires ShortEscape(c).Some?
    ensures Read([BACKSLASH, ShortEscape(c).value] + t) == Prepend([c], Read(t))
  {
    var all := [BACKSLASH, ShortEscape(c).value] + t;
    assert all[2..] == t;
    assert Unescape(ShortEscape(c).value) == Some(c);
  }

  lemma ReadByte(c: char, t: string)
    requires Between(c, 0, 0x7F)
    ensures Read(EscapeByte(c) + t) == Prepend([c], Read(t))
  {
    if Plain(c) {
      ReadPlain([c], t);
    } else if ShortEscape(c).Some? {
      ReadShort(c, t);
    } else {
      var n := c as int;
      var digits := ['0', '0', HexDigit(n / 16), HexDigit(n % 16)];
      assert FourDigits(digits) == Some(16 * (n / 16) + n % 16);
      assert EscapeByte(c) == [BACKSLASH, 'u'] + digits;
      ReadCodePoint(digits, t);
    }
  }

  lemma ReadRune(w: string, t: string)
    requires IsRune(w)
    ensures Read(EscapeRune(w) + t) == Prepend(w, Read(t))
  {
    if |w| == 1 {
      ReadByte(w[0], t);
      assert w == [w[0]];
    } else if IsLineSeparator(w) {
      var digits := ['2', '0', '2', HexDigit(w[2] as int - 0xA0)];
      assert FourDigits(digits) == Some(0x2020 + w[2] as int - 0xA0);
      assert EscapeRune(w) == [BACKSLASH, 'u'] + digits;
      assert Encoded(FourDigits(digits).value) == w;
      ReadCodePoint(digits, t);
    } else {
      ReadPlain(w, t);
    }
  }

  /** Reading the escaped runes up to the quote gives the runes, and what follows the quote. */
  lemma {:induction false} ReadRunes(runes: seq<string>, rest: string)
    requires AllRunes(runes)
    ensures Read(EscapeRunes(runes) + ([QUOTE] + rest)) == Good(Concat(runes), rest)
  {
    var end := [QUOTE] + rest;
    if runes == [] {
      assert EscapeRunes(runes) + end == end;
    } else {
      var tail := EscapeRunes(runes[1..]) + end;
      assert EscapeRunes(runes) + end == EscapeRune(runes[0]) + tail;
      ReadRunes(runes[1..], rest);
      ReadRune(runes[0], tail);
    }
  }

  lemma InsideQuotes(escaped: string, rest: string)
    ensures ([QUOTE] + escaped + [QUOTE] + rest)[1..] == escaped + ([QUOTE] + rest)
  {
  }

  /** Reading a written string gives back the text, and finds its end exactly. */
  lemma ReadQuoted(s: string, rest: string)
    requires ValidUtf8(s)
    ensures Read((Quoted(s) + rest)[1..]) == Good(s, rest)
  {
    RunesMakeTheString(s);
    RunesOfValid(s);
    InsideQuotes(EscapeRunes(Runes(s)), rest);
    ReadRunes(Runes(s), rest);
  }

  /** So two written strings, whatever follows them, are told apart. */
  lemma QuotedIsUnambiguous(a: string, x: string, b: string, y: string)
    requires ValidUtf8(a) && ValidUtf8(b)
    requires Quoted(a) + x == Quoted(b) + y
    ensures a == b && x == y
  {
    ReadQuoted(a, x);
    ReadQuoted(b, y);
  }

  /** Text that is not UTF-8 loses its bytes on the way: each byte that starts no rune is written as U+FFFD. */
  lemma InvalidBytesCollapse(b: char, c: char)
    requires RuneWidth([b]) == 0 && RuneWidth([c]) == 0
    ensures Quoted([b]) == Quoted([c])
  {
    assert [b][..1] == [b] && [c][..1] == [c] && [b][1..] == "" && [c][1..] == "";
    assert Runes([b]) == [[b]] + Runes("") && Runes([c]) == [[c]] + Runes("");
    assert [[b]][1..] == [] && [[c]][1..] == [];
    assert EscapeRunes([[b]]) == "\\ufffd" + EscapeRunes([]);
    assert EscapeRunes([[c]]) == "\\ufffd" + EscapeRunes([]);
  }
}
