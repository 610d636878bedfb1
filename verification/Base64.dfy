/** Base64url without padding (section 5 of RFC 4648), as base64.RawURLEncoding writes and reads it. */
module Base64 {
  import opened Items

  type Sextet = n: int | 0 <= n < 64

  function CharOf(n: Sextet): char {
    if n < 26 then (65 + n) as char
    else if n < 52 then (97 + n - 26) as char
    else if n < 62 then (48 + n - 52) as char
    else if n == 62 then '-'
    else '_'
  }

  function ValueOf(c: char): Option<Sextet> {
    if 'A' <= c <= 'Z' then Some(c as int - 65)
    else if 'a' <= c <= 'z' then Some(c as int - 97 + 26)
    else if '0' <= c <= '9' then Some(c as int - 48 + 52)
    else if c == '-' then Some(62)
    else if c == '_' then Some(63)
    else None
  }

  lemma ValueOfChar(n: Sextet)
    ensures ValueOf(CharOf(n)) == Some(n)
  {
  }

  function Encode(b: seq<Byte>): (s: string)
    ensures forall i :: 0 <= i < |s| ==> ValueOf(s[i]).Some?
  {
    if |b| == 0 then ""
    else if |b| == 1 then [CharOf(b[0] / 4), CharOf(b[0] % 4 * 16)]
    else if |b| == 2 then [CharOf(b[0] / 4), CharOf(b[0] % 4 * 16 + b[1] / 16), CharOf(b[1] % 16 * 4)]
    else Quad(b[0], b[1], b[2]) + Encode(b[3..])
  }

  function Quad(x: Byte, y: Byte, z: Byte): string {
    [CharOf(x / 4), CharOf(x % 4 * 16 + y / 16), CharOf(y % 16 * 4 + z / 64), CharOf(z % 64)]
  }

  /** The decoder skips line ends wherever they stand. */
  function WithoutLineEnds(s: string): string {
    if s == "" then ""
    else if s[0] == '\r' || s[0] == '\n' then WithoutLineEnds(s[1..])
    else [s[0]] + WithoutLineEnds(s[1..])
  }

  /** The decoder does not check that the unused low bits of the last character are zero. */
  function DecodeChars(s: string): Option<seq<Byte>> {
    if |s| == 0 then Some([])
    else if |s| == 1 then None
    else
      match (ValueOf(s[0]), ValueOf(s[1]))
      case (Some(v0), Some(v1)) =>
        if |s| == 2 then Some([v0 * 4 + v1 / 16])
        else
          (match ValueOf(s[2])
           case None => None
           case Some(v2) =>
             if |s| == 3 then Some([v0 * 4 + v1 / 16, v1 % 16 * 16 + v2 / 4])
             else
               match (ValueOf(s[3]), DecodeChars(s[4..]))
               case (Some(v3), Some(rest)) =>
                 Some([v0 * 4 + v1 / 16, v1 % 16 * 16 + v2 / 4, v2 % 4 * 64 + v3] + rest)
               case _ => None)
      case _ => None
  }

  function Decode(s: string): Option<seq<Byte>> {
    DecodeChars(WithoutLineEnds(s))
  }

  lemma {:induction false} NothingToSkip(s: string)
    requires forall i :: 0 <= i < |s| ==> ValueOf(s[i]).Some?
    ensures WithoutLineEnds(s) == s
  {
    if s == "" {
    } else {
      assert ValueOf(s[0]).Some?;
      NothingToSkip(s[1..]);
    }
  }

  lemma DecodeOne(x: Byte)
    ensures DecodeChars([CharOf(x / 4), CharOf(x % 4 * 16)]) == Some([x])
  {
    ValueOfChar(x / 4);
    ValueOfChar(x % 4 * 16);
    assert x / 4 * 4 + x % 4 * 16 / 16 == x;
  }

  lemma DecodeTwo(x: Byte, y: Byte)
    ensures DecodeChars([CharOf(x / 4), CharOf(x % 4 * 16 + y / 16), CharOf(y % 16 * 4)]) == Some([x, y])
  {
    ValueOfChar(x / 4);
    ValueOfChar(x % 4 * 16 + y / 16);
    ValueOfChar(y % 16 * 4);
    assert x / 4 * 4 + (x % 4 * 16 + y / 16) / 16 == x;
    assert (x % 4 * 16 + y / 16) % 16 * 16 + y % 16 * 4 / 4 == y;
  }

  lemma {:induction false} DecodeCharsOfEncode(b: seq<Byte>)
    ensures DecodeChars(Encode(b)) == Some(b)
  {
    if |b| == 1 {
      DecodeOne(b[0]);
      assert b == [b[0]];
    } else if |b| == 2 {
      DecodeTwo(b[0], b[1]);
      assert b == [b[0], b[1]];
    } else if |b| > 2 {
      DecodeCharsOfEncode(b[3..]);
      DecodeQuad(b[0], b[1], b[2], Encode(b[3..]));
      assert b == [b[0], b[1], b[2]] + b[3..];
    }
  }

  /** Four sextets hold three bytes. */
  lemma SextetsHoldBytes(x: Byte, y: Byte, z: Byte)
    ensures x / 4 * 4 + (x % 4 * 16 + y / 16) / 16 == x
    ensures (x % 4 * 16 + y / 16) % 16 * 16 + (y % 16 * 4 + z / 64) / 4 == y
    ensures (y % 16 * 4 + z / 64) % 4 * 64 + z % 64 == z
  {
    assert (x % 4 * 16 + y / 16) / 16 == x % 4 && (x % 4 * 16 + y / 16) % 16 == y / 16;
    assert (y % 16 * 4 + z / 64) / 4 == y % 16 && (y % 16 * 4 + z / 64) % 4 == z / 64;
  }

  lemma DecodeStep(s: string, v0: Sextet, v1: Sextet, v2: Sextet, v3: Sextet, x: Byte, y: Byte, z: Byte)
    requires |s| >= 4 && DecodeChars(s[4..]).Some?
    requires ValueOf(s[0]) == Some(v0) && ValueOf(s[1]) == Some(v1)
    requires ValueOf(s[2]) == Some(v2) && ValueOf(s[3]) == Some(v3)
    requires x == v0 * 4 + v1 / 16 && y == v1 % 16 * 16 + v2 / 4 && z == v2 % 4 * 64 + v3
    ensures DecodeChars(s) == Some([x, y, z] + DecodeChars(s[4..]).value)
  {
  }

  lemma DecodeQuad(x: Byte, y: Byte, z: Byte, rest: string)
    requires DecodeChars(rest).Some?
    ensures DecodeChars(Quad(x, y, z) + rest) == Some([x, y, z] + DecodeChars(rest).value)
  {
    var v0, v1, v2, v3 := x / 4, x % 4 * 16 + y / 16, y % 16 * 4 + z / 64, z % 64;
    ValueOfChar(v0);
    ValueOfChar(v1);
    ValueOfChar(v2);
    ValueOfChar(v3);
    SextetsHoldBytes(x, y, z);
    assert (Quad(x, y, z) + rest)[4..] == rest;
    DecodeStep(Quad(x, y, z) + rest, v0, v1, v2, v3, x, y, z);
  }

  /** Reading what was written gives the bytes back. */
  lemma RoundTrip(b: seq<Byte>)
    ensures Decode(Encode(b)) == Some(b)
  {
    NothingToSkip(Encode(b));
    DecodeCharsOfEncode(b);
  }

  lemma {:induction false} EncodedLength(b: seq<Byte>)
    ensures |Encode(b)| == (|b| * 4 + 2) / 3
  {
    if |b| > 2 { EncodedLength(b[3..]); }
  }

  /** Two texts in the alphabet of RFC 4648 for URLs. */
  lemma WritesTheUrlAlphabet()
    ensures Quad(102, 111, 111) == "Zm9v" && Quad(251, 255, 254) == "-__-"
  {
  }

  /** The decoder alone is not canonical: line ends and loose final bits read the same bytes. */
  lemma DecoderAcceptsVariants()
    ensures Decode("AA") == Some([0]) && Decode("A\nA") == Some([0]) && Decode("AB") == Some([0])
  {
    assert WithoutLineEnds("AA") == "AA" by { assert "AA"[1..] == "A" && "A"[1..] == ""; }
    assert WithoutLineEnds("AB") == "AB" by { assert "AB"[1..] == "B" && "B"[1..] == ""; }
    assert WithoutLineEnds("A\nA") == "AA" by {
      assert "A\nA"[1..] == "\nA" && "\nA"[1..] == "A" && "A"[1..] == "";
      assert WithoutLineEnds("A") == "A";
      assert WithoutLineEnds("\nA") == "A";
      assert ['A'] + "A" == "AA";
    }
  }
}
