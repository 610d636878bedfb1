/** Canonical input, request fingerprints and storage keys, with the hash as a given function. */
module Fingerprint {
  import opened Items
  import opened GoStrings
  import opened JsonStrings
  import opened Unicode
  import opened Trimming

  const MAX_NAME_LENGTH := 120
  const MAX_DESCRIPTION_LENGTH := 2000
  const MAX_KEY_BYTES := 255
  const MAX_SCOPE_BYTES := 512
  const DEFAULT_SCOPE := "items:create"

  type Hash = string -> Digest

  /** Two texts the hash does not confuse. */
  predicate NoCollision(sha: Hash, x: string, y: string) {
    sha(x) == sha(y) ==> x == y
  }

  // ----- Canonical input -----

  datatype CreateInput = CreateInput(name: string, description: string)

  predicate WellFormed(c: CreateInput) {
    ValidUtf8(c.name) && ValidUtf8(c.description)
  }

  function ValidateCreateInput(input: CreateInput): (r: Result<CreateInput>)
    ensures r.Ok? ==> WellFormed(r.value)
  {
    var name, description := TrimSpace(input.name), TrimSpace(input.description);
    if !ValidUtf8(name) || RuneCount(name) < 1 || RuneCount(name) > MAX_NAME_LENGTH then Err(InvalidInput("name"))
    else if !ValidUtf8(description) || RuneCount(description) > MAX_DESCRIPTION_LENGTH then
      Err(InvalidInput("description"))
    else Ok(CreateInput(name, description))
  }

  /**
   * Validation keeps both texts whole but for the white space around them, and
   * refuses exactly a name or a description that is not UTF-8 or whose length in
   * code points is out of range; the name is judged first.
   */
  lemma CanonicalIsTrimmed(input: CreateInput, name: string, description: string)
    requires Trims(input.name, name) && Trims(input.description, description)
    ensures ValidateCreateInput(input) ==
            if !(ValidUtf8(name) && 1 <= RuneCount(name) <= 120) then Err(InvalidInput("name"))
            else if !(ValidUtf8(description) && RuneCount(description) <= 2000) then Err(InvalidInput("description"))
            else Ok(CreateInput(name, description))
  {
    TrimsIsUnique(input.name, name);
    TrimsIsUnique(input.description, description);
  }

  /** A canonical input has the caller's texts without the white space around them, and validates to itself. */
  lemma CanonicalIsFixed(input: CreateInput)
    requires ValidateCreateInput(input).Ok?
    ensures Trims(input.name, ValidateCreateInput(input).value.name)
    ensures Trims(input.description, ValidateCreateInput(input).value.description)
    ensures ValidateCreateInput(ValidateCreateInput(input).value) == ValidateCreateInput(input)
  {
    TrimSpaceTrims(input.name);
    TrimSpaceTrims(input.description);
    TrimSpaceIdempotent(input.name);
    TrimSpaceIdempotent(input.description);
  }

  // ----- The hashed texts -----

  /** A JSON object of two string fields. */
  function TwoFields(k1: string, v1: string, k2: string, v2: string): string {
    "{\"" + k1 + "\":" + Quoted(v1) + ",\"" + k2 + "\":" + Quoted(v2) + "}"
  }

  lemma TwoFieldsIsUnambiguous(k1: string, k2: string, v1: string, v2: string, w1: string, w2: string)
    requires ValidUtf8(v1) && ValidUtf8(v2) && ValidUtf8(w1) && ValidUtf8(w2)
    ensures TwoFields(k1, v1, k2, v2) == TwoFields(k1, w1, k2, w2) <==> v1 == w1 && v2 == w2
  {
    if TwoFields(k1, v1, k2, v2) == TwoFields(k1, w1, k2, w2) {
      TwoFieldsParts(k1, v1, k2, v2);
      TwoFieldsParts(k1, w1, k2, w2);
      var head, middle := "{\"" + k1 + "\":", ",\"" + k2 + "\":";
      var v, w := middle + (Quoted(v2) + "}"), middle + (Quoted(w2) + "}");
      Cancel(head, Quoted(v1) + v, Quoted(w1) + w);
      QuotedIsUnambiguous(v1, v, w1, w);
      Cancel(middle, Quoted(v2) + "}", Quoted(w2) + "}");
      QuotedIsUnambiguous(v2, "}", w2, "}");
    }
  }

  lemma TwoFieldsParts(k1: string, v1: string, k2: string, v2: string)
    ensures TwoFields(k1, v1, k2, v2) ==
            ("{\"" + k1 + "\":") + (Quoted(v1) + ((",\"" + k2 + "\":") + (Quoted(v2) + "}")))
  {
  }

  lemma Cancel(head: string, x: string, y: string)
    requires head + x == head + y
    ensures x == y
  {
    assert (head + x)[|head|..] == x && (head + y)[|head|..] == y;
  }

  function InputText(c: CreateInput): string {
    TwoFields("name", c.name, "description", c.description)
  }

  /** The text behind a fingerprint is the same exactly for the same canonical input. */
  lemma InputTextIsUnambiguous(a: CreateInput, b: CreateInput)
    requires WellFormed(a) && WellFormed(b)
    ensures InputText(a) == InputText(b) <==> a == b
  {
    TwoFieldsIsUnambiguous("name", "description", a.name, a.description, b.name, b.description);
  }

  const KEY_PREFIX := "go-clean-architecture/idempotency/v1:"

  function KeyText(scope: string, key: string): string {
    KEY_PREFIX + TwoFields("scope", scope, "key", key)
  }

  /** No scope and key can be cut differently into another scope and key. */
  lemma KeyTextIsUnambiguous(scope: string, key: string, otherScope: string, otherKey: string)
    requires ValidUtf8(scope) && ValidUtf8(key) && ValidUtf8(otherScope) && ValidUtf8(otherKey)
    ensures KeyText(scope, key) == KeyText(otherScope, otherKey) <==> scope == otherScope && key == otherKey
  {
    TwoFieldsIsUnambiguous("scope", "key", scope, key, otherScope, otherKey);
    assert KeyText(scope, key)[|KEY_PREFIX|..] == TwoFields("scope", scope, "key", key);
    assert KeyText(otherScope, otherKey)[|KEY_PREFIX|..] == TwoFields("scope", otherScope, "key", otherKey);
  }

  /** The texts behind fingerprints and storage keys, for values that need no escapes. */
  lemma TextsAreJson(name: string, description: string, scope: string, key: string)
    requires forall i :: 0 <= i < |name| ==> Plain(name[i])
    requires forall i :: 0 <= i < |description| ==> Plain(description[i])
    requires forall i :: 0 <= i < |scope| ==> Plain(scope[i])
    requires forall i :: 0 <= i < |key| ==> Plain(key[i])
    ensures InputText(CreateInput(name, description)) == PlainObject("name", name, "description", description)
    ensures KeyText(scope, key) ==
            "go-clean-architecture/idempotency/v1:" + PlainObject("scope", scope, "key", key)
  {
    PlainFields("name", name, "description", description);
    PlainFields("scope", scope, "key", key);
  }

  /** A JSON object of two string fields, neither of which needs escapes. */
  function PlainObject(k1: string, v1: string, k2: string, v2: string): string {
    "{\"" + k1 + "\":" + ("\"" + v1 + "\"") + ",\"" + k2 + "\":" + ("\"" + v2 + "\"") + "}"
  }

  lemma PlainFields(k1: string, v1: string, k2: string, v2: string)
    requires forall i :: 0 <= i < |v1| ==> Plain(v1[i])
    requires forall i :: 0 <= i < |v2| ==> Plain(v2[i])
    ensures TwoFields(k1, v1, k2, v2) == PlainObject(k1, v1, k2, v2)
  {
    PlainIsQuotedAsIs(v1);
    PlainIsQuotedAsIs(v2);
  }

  // ----- Digests as text -----

  const DIGEST_DIGITS := 64

  /** How many numbers `width` hex digits can tell apart. */
  function Numbers(width: nat): (n: nat)
    ensures n > 0
  {
    if width == 0 then 1 else 16 * Numbers(width - 1)
  }

  function HexText(d: nat, width: nat): (t: string)
    ensures |t| == width
  {
    if width == 0 then "" else HexText(d / 16, width - 1) + [HexDigit(d % 16)]
  }

  /** hex.Decode on an even number of digits; capital letters are accepted. */
  function HexNumber(t: string): Option<nat> {
    if t == "" then Some(0)
    else
      var front, last := HexNumber(t[..|t| - 1]), HexValue(t[|t| - 1]);
      if front.None? || last.None? then None else Some(16 * front.value + last.value)
  }

  function DecodeDigest(t: string): Option<Digest> {
    if |t| != DIGEST_DIGITS then None else HexNumber(t)
  }

  /** Hex text reads as a number exactly when it consists of hex digits. */
  lemma {:induction false} HexTextIsDigits(t: string)
    ensures HexNumber(t).Some? <==> forall i :: 0 <= i < |t| ==> HexDigitCode(t[i] as int)
  {
    if t == "" {
    } else {
      var n := |t| - 1;
      HexTextIsDigits(t[..n]);
      assert HexValue(t[n]).Some? <==> HexDigitCode(t[n] as int);
      assert t == t[..n] + [t[n]];
    }
  }

  predicate HexDigitCode(n: int) {
    0x30 <= n <= 0x39 || 0x41 <= n <= 0x46 || 0x61 <= n <= 0x66
  }

  lemma {:induction false} HexRoundTrip(d: nat, width: nat)
    requires d < Numbers(width)
    ensures HexNumber(HexText(d, width)) == Some(d)
    decreases width
  {
    if width == 0 {
    } else {
      HexRoundTrip(d / 16, width - 1);
      var t := HexText(d, width);
      assert t[..|t| - 1] == HexText(d / 16, width - 1);
    }
  }

  /** The hash gives 256-bit digests. */
  ghost predicate IsSha(sha: Hash) {
    forall x :: sha(x) < Numbers(DIGEST_DIGITS)
  }

  lemma DigestTextDecodes(sha: Hash, x: string)
    requires IsSha(sha)
    ensures DecodeDigest(HexText(sha(x), DIGEST_DIGITS)) == Some(sha(x))
  {
    HexRoundTrip(sha(x), DIGEST_DIGITS);
  }

  // ----- Keys and scopes -----

  /** The bytes of an HTTP token, section 5.6.2 of RFC 9110. */
  predicate TokenByte(c: char) {
    'a' <= c <= 'z' || 'A' <= c <= 'Z' || '0' <= c <= '9' || c in "!#$%&'*+-.^_`|~"
  }

  predicate ValidKey(key: string) {
    0 < |key| <= MAX_KEY_BYTES && forall i :: 0 <= i < |key| ==> TokenByte(key[i])
  }

  /** The token bytes by their codes. */
  predicate TokenCode(n: int) {
    || n == 0x21 || 0x23 <= n <= 0x27 || 0x2A <= n <= 0x2B || 0x2D <= n <= 0x2E || 0x30 <= n <= 0x39
    || 0x41 <= n <= 0x5A || 0x5E <= n <= 0x7A || n == 0x7C || n == 0x7E
  }

  lemma TokenBytes(c: char)
    ensures TokenByte(c) <==> TokenCode(c as int)
  {
  }

  predicate IsKey(key: string) {
    1 <= |key| <= 255 && forall i :: 0 <= i < |key| ==> TokenCode(key[i] as int)
  }

  lemma ValidKeys(key: string)
    ensures ValidKey(key) <==> IsKey(key)
  {
    forall i | 0 <= i < |key| ensures TokenByte(key[i]) <==> TokenCode(key[i] as int) {
      TokenBytes(key[i]);
    }
  }

  method ValidateIdempotencyKey(key: string) returns (error: Option<Error>)
    ensures error == if ValidKey(key) then None else Some(InvalidInput("idempotency_key"))
    ensures error.None? <==> IsKey(key)
  {
    ValidKeys(key);
    if key == "" || |key| > MAX_KEY_BYTES {
      return Some(InvalidInput("idempotency_key"));
    }
    for index := 0 to |key|
      invariant forall i :: 0 <= i < index ==> TokenByte(key[i])
    {
      if !TokenByte(key[index]) {
        return Some(InvalidInput("idempotency_key"));
      }
    }
    return None;
  }

  lemma {:induction false} AsciiIsUtf8(s: string)
    requires forall i :: 0 <= i < |s| ==> Between(s[i], 0, 0x7F)
    ensures ValidUtf8(s)
  {
    if s == "" {
    } else {
      AsciiIsUtf8(s[1..]);
    }
  }

  lemma TokensAreUtf8(key: string)
    requires forall i :: 0 <= i < |key| ==> TokenByte(key[i])
    ensures ValidUtf8(key)
  {
    forall i | 0 <= i < |key| ensures Between(key[i], 0, 0x7F) {
      assert TokenByte(key[i]);
    }
    AsciiIsUtf8(key);
  }

  predicate UsableScope(scope: string) {
    0 < |scope| <= MAX_SCOPE_BYTES && ControlFree(scope)
  }

  /** The usable scopes: 1 to 512 bytes of text without control characters. */
  lemma UsableScopes(scope: string)
    ensures UsableScope(scope) <==>
            1 <= |scope| <= 512 && exists vs :: AllScalar(vs) && Text(vs) == scope && NoControl(vs)
  {
    if UsableScope(scope) {
      ControlFreeIsUtf8(scope);
      var vs := Utf8IsText(scope);
      ControlFreeText(vs);
    }
    forall vs | AllScalar(vs) && Text(vs) == scope && NoControl(vs) ensures ControlFree(scope) {
      ControlFreeText(vs);
    }
  }

  /** The scope a request context carries; an unusable one falls back to the default. */
  function EffectiveScope(requested: Option<string>): (scope: string)
    ensures ValidUtf8(scope) && 0 < |scope| <= MAX_SCOPE_BYTES
    ensures requested.Some? && UsableScope(requested.value) ==> scope == requested.value
    ensures requested.None? || !UsableScope(requested.value) ==> scope == "items:create"
  {
    if || requested.None? || requested.value == ""
       || |requested.value| > MAX_SCOPE_BYTES || !ControlFree(requested.value)
    then
      AsciiIsUtf8(DEFAULT_SCOPE);
      DEFAULT_SCOPE
    else
      ControlFreeIsUtf8(requested.value);
      requested.value
  }

  lemma {:induction false} ControlFreeIsUtf8(s: string)
    requires ControlFree(s)
    ensures ValidUtf8(s)
    decreases |s|
  {
    if s == "" {
    } else {
      ControlFreeIsUtf8(s[RuneWidth(s)..]);
    }
  }

  /** The opaque key the service hands to an adapter. */
  function StorageKey(sha: Hash, scope: string, key: string): string {
    "v1_" + HexText(sha(KeyText(scope, key)), DIGEST_DIGITS)
  }

  lemma {:induction false} HexTextIsToken(d: nat, width: nat)
    ensures forall i :: 0 <= i < width ==> TokenByte(HexText(d, width)[i])
  {
    if width == 0 {
    } else {
      HexTextIsToken(d / 16, width - 1);
    }
  }

  /** Every storage key is itself a key the adapters accept. */
  lemma StorageKeyIsValid(sha: Hash, scope: string, key: string)
    ensures ValidKey(StorageKey(sha, scope, key))
  {
    HexTextIsToken(sha(KeyText(scope, key)), DIGEST_DIGITS);
  }

  /** The digest under which an adapter files a request. */
  function KeyHash(sha: Hash, scope: string, key: string): Digest {
    sha(StorageKey(sha, scope, key))
  }

  function InputHash(sha: Hash, c: CreateInput): Digest {
    sha(InputText(c))
  }

  /** The fingerprint the service hands over: the digest as text. */
  function FingerprintCreateInput(sha: Hash, input: CreateInput): Result<string> {
    match ValidateCreateInput(input)
    case Err(error) => Err(error)
    case Ok(canonical) => Ok(HexText(InputHash(sha, canonical), DIGEST_DIGITS))
  }

  /** Edge padding leaves the fingerprint alone, and an adapter reads back the digest it stands for. */
  lemma FingerprintIsOfCanonical(sha: Hash, input: CreateInput)
    requires IsSha(sha) && ValidateCreateInput(input).Ok?
    ensures var canonical := ValidateCreateInput(input).value;
            && FingerprintCreateInput(sha, canonical) == FingerprintCreateInput(sha, input)
            && DecodeDigest(FingerprintCreateInput(sha, input).value) == Some(InputHash(sha, canonical))
  {
    CanonicalIsFixed(input);
    DigestTextDecodes(sha, InputText(ValidateCreateInput(input).value));
  }

  /** Unless the hash collides, only the same scope and key meet under one digest. */
  lemma KeysMeetOnlyInTheirScope(sha: Hash, scope: string, key: string, otherScope: string, otherKey: string)
    requires IsSha(sha) && ValidUtf8(scope) && ValidUtf8(otherScope) && ValidKey(key) && ValidKey(otherKey)
    requires NoCollision(sha, KeyText(scope, key), KeyText(otherScope, otherKey))
    requires NoCollision(sha, StorageKey(sha, scope, key), StorageKey(sha, otherScope, otherKey))
    ensures KeyHash(sha, scope, key) == KeyHash(sha, otherScope, otherKey) <==> scope == otherScope && key == otherKey
  {
    TokensAreUtf8(key);
    TokensAreUtf8(otherKey);
    KeyTextIsUnambiguous(scope, key, otherScope, otherKey);
    var a, b := sha(KeyText(scope, key)), sha(KeyText(otherScope, otherKey));
    HexRoundTrip(a, DIGEST_DIGITS);
    HexRoundTrip(b, DIGEST_DIGITS);
    assert StorageKey(sha, scope, key)[3..] == HexText(a, DIGEST_DIGITS);
    assert StorageKey(sha, otherScope, otherKey)[3..] == HexText(b, DIGEST_DIGITS);
  }

  /** Unless the hash collides, fingerprints agree exactly on equal canonical inputs. */
  lemma FingerprintsTellInputsApart(sha: Hash, a: CreateInput, b: CreateInput)
    requires WellFormed(a) && WellFormed(b) && NoCollision(sha, InputText(a), InputText(b))
    ensures InputHash(sha, a) == InputHash(sha, b) <==> a == b
  {
    InputTextIsUnambiguous(a, b);
  }
}
