/** Bearer credentials: the header parser and the b64token grammar of section 2.1 of RFC 6750. */
module Bearer {
  import opened GoStrings
  import opened Trimming

  const MAX_TOKEN_BYTES := 4096

  datatype Refusal = Missing | Duplicate | Invalid | TooLong | Unsupported

  datatype Parsed = Accepted(token: string) | Rejected(error: Refusal)

  // ----- The token grammar -----

  predicate TokenByte(c: char) {
    'a' <= c <= 'z' || 'A' <= c <= 'Z' || '0' <= c <= '9' || c in "-._~+/"
  }

  /** The token bytes by their codes. */
  lemma TokenBytes(c: char)
    ensures var n := c as int;
            TokenByte(c) <==>
            n == 0x2B || 0x2D <= n <= 0x39 || 0x41 <= n <= 0x5A || n == 0x5F || 0x61 <= n <= 0x7A || n == 0x7E
  {
  }

  /** At least one token byte, then padding only. */
  predicate IsB64Token(t: string) {
    exists n :: 0 < n <= |t| && Unpadded(t, n) && Padded(t, n)
  }

  predicate Unpadded(t: string, n: nat)
    requires n <= |t|
  {
    forall i :: 0 <= i < n ==> TokenByte(t[i])
  }

  predicate Padded(t: string, n: nat) {
    forall i :: n <= i < |t| ==> t[i] == '='
  }

  /** The nested scan: up to the first padding byte, then to the end. */
  method ValidBearerToken(token: string) returns (valid: bool)
    ensures valid == IsB64Token(token)
  {
    if token == "" || token[0] == '=' {
      return false;
    }
    for index := 0 to |token|
      invariant Unpadded(token, index)
    {
      if token[index] == '=' {
        for padding := index to |token|
          invariant forall i :: index <= i < padding ==> token[i] == '='
        {
          if token[padding] != '=' {
            assert !IsB64Token(token) by { NotPadded(token, index, padding); }
            return false;
          }
        }
        assert Unpadded(token, index) && Padded(token, index);
        return true;
      } else if !TokenByte(token[index]) {
        assert !IsB64Token(token);
        return false;
      }
    }
    assert Unpadded(token, |token|) && Padded(token, |token|);
    return true;
  }

  lemma NotPadded(t: string, first: nat, other: nat)
    requires first < other < |t| && t[first] == '=' && t[other] != '='
    ensures !IsB64Token(t)
  {
    forall n | 0 < n <= |t| ensures !(Unpadded(t, n) && Padded(t, n)) {
      if n > first { assert !TokenByte(t[first]); }
    }
  }

  // ----- The header -----

  /** strings.IndexByte, with the length of the string standing for "not found". */
  function IndexOf(s: string, c: char): (n: nat)
    ensures n <= |s| && (n < |s| ==> s[n] == c) && forall i :: 0 <= i < n ==> s[i] != c
  {
    if s == "" || s[0] == c then 0 else
      var n := IndexOf(s[1..], c);
      assert forall i :: 0 < i < n + 1 ==> s[i] == s[1..][i - 1];
      n + 1
  }

  function Lower(c: char): char {
    if 'A' <= c <= 'Z' then (c as int + 32) as char else c
  }

  /** strings.EqualFold against "Bearer"; no rune beyond ASCII folds to one of its letters. */
  predicate NamesBearer(scheme: string) {
    |scheme| == 6 && forall i :: 0 <= i < 6 ==> Lower(scheme[i]) == "bearer"[i]
  }

  /** The sixty-four ways to write the scheme. */
  lemma BearerNames(s: string)
    ensures NamesBearer(s) <==>
            && |s| == 6 && s[0] in "Bb" && s[1] in "Ee" && s[2] in "Aa" && s[3] in "Rr" && s[4] in "Ee" && s[5] in "Rr"
  {
    if |s| == 6 {
      assert forall i :: 0 <= i < 6 ==> (Lower(s[i]) == "bearer"[i] <==>
                                           s[i] == "bearer"[i] || s[i] == "BEARER"[i]);
    }
  }

  predicate HasBreak(s: string) {
    exists i :: 0 <= i < |s| && (s[i] == '\t' || s[i] == '\r' || s[i] == '\n')
  }

  function ParseBearerHeader(values: seq<string>): Parsed {
    if |values| == 0 then Rejected(Missing)
    else if |values| > 1 then Rejected(Duplicate)
    else
      var raw := values[0];
      if |raw| > MAX_TOKEN_BYTES + |"Bearer "| then Rejected(TooLong)
      else if raw == "" || raw != TrimSpace(raw) || HasBreak(raw) then Rejected(Invalid)
      else
        var separator := IndexOf(raw, ' ');
        if separator == 0 || separator >= |raw| - 1 then Rejected(Invalid)
        else
          var scheme, token := raw[..separator], raw[separator + 1..];
          if IndexOf(token, ' ') < |token| then Rejected(Invalid)
          else if !NamesBearer(scheme) then Rejected(Unsupported)
          else if |token| > MAX_TOKEN_BYTES then Rejected(TooLong)
          else if !IsB64Token(token) then Rejected(Invalid)
          else Accepted(token)
  }

  /** The one shape of header that carries a token. */
  ghost predicate Carries(raw: string, token: string) {
    && |raw| == 7 + |token| && NamesBearer(raw[..6]) && raw[6] == ' ' && raw[7..] == token
    && |token| <= MAX_TOKEN_BYTES && IsB64Token(token)
  }

  /** Accepted with a token exactly when there is one value and it is scheme, one space, and that token. */
  lemma AcceptsExactly(values: seq<string>, token: string)
    ensures ParseBearerHeader(values) == Accepted(token) <==> |values| == 1 && Carries(values[0], token)
  {
    if |values| == 1 {
      assert values == [values[0]];
      if Carries(values[0], token) { CarriedIsAccepted(values[0], token); }
      if ParseBearerHeader(values) == Accepted(token) { AcceptedIsCarried(values[0], token); }
    }
  }

  lemma AcceptedIsCarried(raw: string, token: string)
    requires ParseBearerHeader([raw]) == Accepted(token)
    ensures Carries(raw, token)
  {
  }

  lemma TokenIsPrintable(token: string, i: nat)
    requires IsB64Token(token) && i < |token|
    ensures Printable(token[i])
  {
    var n :| 0 < n <= |token| && Unpadded(token, n) && Padded(token, n);
    assert i < n ==> TokenByte(token[i]);
  }

  lemma SchemeIsPrintable(scheme: string, i: nat)
    requires NamesBearer(scheme) && i < 6
    ensures Printable(scheme[i])
  {
    assert Lower(scheme[i]) == "bearer"[i];
  }

  lemma CarriedIsPrintable(raw: string, token: string, i: nat)
    requires Carries(raw, token) && i < |raw| && i != 6
    ensures Printable(raw[i])
  {
    if i < 6 {
      SchemeIsPrintable(raw[..6], i);
      assert raw[i] == raw[..6][i];
    } else {
      TokenIsPrintable(token, i - 7);
    }
  }

  lemma CarriedIsAccepted(raw: string, token: string)
    requires Carries(raw, token)
    ensures ParseBearerHeader([raw]) == Accepted(token)
  {
    assert token != "" && raw == TrimSpace(raw) && !HasBreak(raw) && IndexOf(raw, ' ') == 6 by {
      CarriedIsClean(raw, token);
    }
    assert IndexOf(token, ' ') == |token| by {
      forall i | 0 <= i < |token| ensures token[i] != ' ' { TokenIsPrintable(token, i); }
    }
  }

  lemma CarriedIsClean(raw: string, token: string)
    requires Carries(raw, token)
    ensures token != "" && raw == TrimSpace(raw) && !HasBreak(raw) && IndexOf(raw, ' ') == 6
  {
    forall i | 0 <= i < |raw| && i != 6 ensures Printable(raw[i]) {
      CarriedIsPrintable(raw, token, i);
    }
    PrintableEdges(raw);
  }

  /** A scheme and its parameter with one space between them and no white space anywhere else. */
  ghost predicate IsPair(raw: string, scheme: string, token: string) {
    && raw == scheme + " " + token && scheme != "" && token != "" && ' ' !in scheme && ' ' !in token
    && NoSpaceAtFront(raw) && NoSpaceAtEnd(raw) && !HasBreak(raw)
  }

  lemma PairIsSplit(raw: string, scheme: string, token: string)
    requires IsPair(raw, scheme, token)
    ensures var n := IndexOf(raw, ' '); n == |scheme| && raw[..n] == scheme && raw[n + 1..] == token
    ensures raw == TrimSpace(raw) && IndexOf(token, ' ') == |token|
  {
    BareIsTrimmed(raw);
    assert raw[|scheme|] == ' ';
    assert forall i :: 0 <= i < |scheme| ==> raw[i] == scheme[i];
  }

  /** A value of permitted length is refused as unsupported exactly when it is a pair under another scheme. */
  lemma UnsupportedExactly(raw: string)
    ensures ParseBearerHeader([raw]) == Rejected(Unsupported) <==>
            |raw| <= 4103 && exists scheme, token :: IsPair(raw, scheme, token) && !NamesBearer(scheme)
  {
    if ParseBearerHeader([raw]) == Rejected(Unsupported) {
      var n := IndexOf(raw, ' ');
      var scheme, token := raw[..n], raw[n + 1..];
      BareIsTrimmed(raw);
      assert raw == scheme + " " + token;
      assert IsPair(raw, scheme, token);
    }
    forall scheme, token | IsPair(raw, scheme, token) && !NamesBearer(scheme) && |raw| <= 4103
      ensures ParseBearerHeader([raw]) == Rejected(Unsupported)
    {
      PairIsSplit(raw, scheme, token);
    }
  }

  /** Why a header is refused: how many values it has, how long the one is, and how it is made. */
  lemma RefusesExactly(values: seq<string>)
    ensures ParseBearerHeader(values) == Rejected(Missing) <==> |values| == 0
    ensures ParseBearerHeader(values) == Rejected(Duplicate) <==> |values| > 1
    ensures ParseBearerHeader(values) == Rejected(TooLong) <==> |values| == 1 && |values[0]| > 4103
    ensures ParseBearerHeader(values) == Rejected(Unsupported) <==>
            && |values| == 1 && |values[0]| <= 4103
            && exists scheme, token :: IsPair(values[0], scheme, token) && !NamesBearer(scheme)
    ensures ParseBearerHeader(values) == Rejected(Invalid) <==>
            && |values| == 1 && |values[0]| <= 4103
            && (forall token :: !Carries(values[0], token))
            && (forall scheme, token :: IsPair(values[0], scheme, token) ==> NamesBearer(scheme))
  {
    if |values| == 1 {
      assert values == [values[0]];
      UnsupportedExactly(values[0]);
      forall token ensures ParseBearerHeader(values) == Accepted(token) <==> Carries(values[0], token) {
        AcceptsExactly(values, token);
      }
      OneValueIsNeither(values[0]);
    }
  }

  lemma OneValueIsNeither(raw: string)
    ensures ParseBearerHeader([raw]) == Rejected(TooLong) <==> |raw| > 4103
    ensures ParseBearerHeader([raw]) != Rejected(Missing) && ParseBearerHeader([raw]) != Rejected(Duplicate)
  {
  }

  /** Every token of the grammar that fits makes the round trip. */
  lemma RoundTrip(token: string)
    requires IsB64Token(token) && |token| <= MAX_TOKEN_BYTES
    ensures ParseBearerHeader(["Bearer " + token]) == Accepted(token)
  {
    var raw := "Bearer " + token;
    assert raw[..6] == "Bearer" && raw[7..] == token;
    assert NamesBearer("Bearer");
    AcceptsExactly([raw], token);
  }
}
