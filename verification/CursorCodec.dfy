/** The signed cursor codec: opaque tokens for positions in the item order. */
module CursorCodec {
  import opened Items
  import opened TimeWire
  import opened Listing
  import opened GoStrings
  import opened Unicode
  import Base64

  const PREFIX := "v1_"
  const MAX_CURSOR_BYTES := 512
  const PAYLOAD_BYTES := 47
  const WIRE_BYTES := 79

  type Mac = m: seq<Byte> | |m| == 32 witness seq(32, _ => 0)

  /** The lifetime in nanoseconds (zero for none), the purpose, and HMAC-SHA-256 under the codec's key. */
  datatype Codec = Codec(ttl: nat, purpose: seq<Byte>, hmac: seq<Byte> -> Mac)

  const MAX_TTL := 30 * 24 * 3600 * SECOND

  function AsString(bytes: seq<Byte>): (s: string)
    ensures |s| == |bytes|
  {
    seq(|bytes|, i requires 0 <= i < |bytes| => bytes[i] as char)
  }

  /** The configurations construction accepts. */
  predicate ValidConfig(codec: Codec) {
    && codec.ttl <= MAX_TTL
    && 0 < |codec.purpose| <= 128
    && ValidUtf8(AsString(codec.purpose))
    && ControlFree(AsString(codec.purpose))
  }

  /** The lifetimes up to thirty days, and the purposes of 1 to 128 bytes of text without control characters. */
  lemma ValidConfigs(codec: Codec)
    ensures ValidConfig(codec) <==>
            && codec.ttl <= 2_592_000_000_000_000
            && 1 <= |codec.purpose| <= 128
            && exists vs :: AllScalar(vs) && Text(vs) == AsString(codec.purpose) && NoControl(vs)
  {
    var s := AsString(codec.purpose);
    if ValidUtf8(s) {
      var vs := Utf8IsText(s);
      ControlFreeText(vs);
      if ControlFree(s) { assert NoControl(vs); }
    }
    forall vs | AllScalar(vs) && Text(vs) == s && NoControl(vs) ensures ValidUtf8(s) && ControlFree(s) {
      TextIsUtf8(vs);
      ControlFreeText(vs);
    }
  }

  /** A purpose contains no control character, so no zero byte. */
  lemma PurposeHasNoZero(codec: Codec)
    requires ValidConfig(codec)
    ensures 0 !in codec.purpose
  {
    var s := AsString(codec.purpose);
    ControlFreeHasNoZero(s);
    forall i | 0 <= i < |s| ensures codec.purpose[i] != 0 {
      assert s[i] as int == codec.purpose[i];
    }
  }

  // ----- Positions -----

  const UNIX_TO_INTERNAL := 62_135_596_800

  /** time.Unix of the instant's Unix seconds and its nanoseconds, in wrapping 64-bit arithmetic. */
  function ThroughUnix(t: Instant): Instant {
    var unix := Signed64(t.sec - UNIX_TO_INTERNAL);
    var carry := if t.nsec >= SECOND then t.nsec / SECOND else 0;
    Instant(Signed64(Signed64(unix + carry) + UNIX_TO_INTERNAL), t.nsec - carry * SECOND)
  }

  function ValidatePosition(p: Position): Option<Error> {
    if p.id == NIL_UUID then Some(InvalidCursor)
    else if p.createdAt.IsZero() then Some(InvalidCursor)
    else if ThroughUnix(p.createdAt) != p.createdAt then Some(InvalidCursor)
    else None
  }

  /** Shifting to Unix seconds and back wraps twice and loses nothing. */
  lemma SecondsSurviveUnix(sec: int)
    requires -TWO_63 <= sec < TWO_63
    ensures var unix := Signed64(sec - UNIX_TO_INTERNAL);
            Signed64(unix) == unix && Signed64(unix + UNIX_TO_INTERNAL) == sec
  {
    var unix := Signed64(sec - UNIX_TO_INTERNAL);
    assert unix == sec - UNIX_TO_INTERNAL || unix == sec - UNIX_TO_INTERNAL + TWO_64;
  }

  /** The range check rejects exactly nanoseconds of a whole second or more: the seconds always survive. */
  lemma RangeCheckIsNormalization(t: Instant)
    requires OnWire(t)
    ensures ThroughUnix(t) == t <==> Normalized(t)
  {
    if t.nsec < SECOND { SecondsSurviveUnix(t.sec); }
  }

  // ----- Encoding -----

  function Payload(p: Position, expiry: seq<Byte>): (payload: seq<Byte>)
    requires OnWire(p.createdAt) && |expiry| == TIME_BYTES
    ensures |payload| == PAYLOAD_BYTES
  {
    [1] + Marshal(p.createdAt) + expiry + p.id
  }

  function Message(purpose: seq<Byte>, payload: seq<Byte>): seq<Byte> {
    purpose + [0] + payload
  }

  function Signature(codec: Codec, payload: seq<Byte>): Mac {
    codec.hmac(Message(codec.purpose, payload))
  }

  function Token(codec: Codec, payload: seq<Byte>): string {
    PREFIX + Base64.Encode(payload + Signature(codec, payload))
  }

  function ExpiryField(codec: Codec, now: Instant): (field: seq<Byte>)
    requires Normalized(now)
    ensures |field| == TIME_BYTES
  {
    if codec.ttl > 0 then Marshal(Add(now, codec.ttl)) else NO_TIME
  }

  /** Why a position cannot be encoded at `now`, if it cannot. */
  function EncodeError(codec: Codec, p: Position, now: Instant): Option<Error>
    requires Normalized(now)
  {
    if ValidatePosition(p).Some? then ValidatePosition(p)
    else if now.IsZero() then Some(CursorUnavailable)
    else if codec.ttl > 0 && !now.Before(Add(now, codec.ttl)) then Some(CursorUnavailable)
    else if codec.ttl > 0 && !p.createdAt.Before(Add(now, codec.ttl)) then Some(CursorState)
    else None
  }

  /** The positions that tokens name: a row's ID and its time, which is a real instant other than the zero time. */
  lemma ValidPositions(p: Position)
    requires OnWire(p.createdAt)
    ensures ValidatePosition(p) ==
            if p.id != seq(16, _ => 0) && p.createdAt != Instant(0, 0) && p.createdAt.nsec < 1_000_000_000 then None
            else Some(InvalidCursor)
  {
    RangeCheckIsNormalization(p.createdAt);
  }

  /**
   * When a valid position can be encoded, in nanoseconds: the clock is set, the
   * lifetime brings the expiry past the clock, which it fails to do only where the
   * seconds run out, and the row is from before the expiry.
   */
  lemma EncodesExactly(codec: Codec, p: Position, now: Instant)
    requires OnWire(p.createdAt) && Normalized(now) && ValidatePosition(p).None?
    ensures EncodeError(codec, p, now) ==
            if now == Instant(0, 0) then Some(CursorUnavailable)
            else if codec.ttl > 0 && Nanos(now) >= Saturated(Nanos(now) + codec.ttl) then Some(CursorUnavailable)
            else if codec.ttl > 0 && Nanos(p.createdAt) >= Saturated(Nanos(now) + codec.ttl) then Some(CursorState)
            else None
  {
    RangeCheckIsNormalization(p.createdAt);
    AddIsExact(now, codec.ttl);
    BeforeIsFewer(now, Add(now, codec.ttl));
    BeforeIsFewer(p.createdAt, Add(now, codec.ttl));
  }

  function Encode(codec: Codec, p: Position, now: Instant): Result<string>
    requires OnWire(p.createdAt) && Normalized(now)
  {
    if EncodeError(codec, p, now).Some? then Err(EncodeError(codec, p, now).value)
    else Ok(Token(codec, Payload(p, ExpiryField(codec, now))))
  }

  // ----- Decoding -----

  /** What an authentic, canonical token carries: the position and the expiry (zero for none). */
  function Open(codec: Codec, token: string): Option<(Position, Instant)> {
    if |token| > MAX_CURSOR_BYTES || !(PREFIX < token) then None
    else
      var encoded := token[|PREFIX|..];
      match Base64.Decode(encoded)
      case None => None
      case Some(wire) =>
        if |wire| != WIRE_BYTES || Base64.Encode(wire) != encoded then None
        else if wire[PAYLOAD_BYTES..] != Signature(codec, wire[..PAYLOAD_BYTES]) then None
        else OpenPayload(wire[..PAYLOAD_BYTES])
  }

  function OpenPayload(payload: seq<Byte>): Option<(Position, Instant)>
    requires |payload| == PAYLOAD_BYTES
  {
    if payload[0] != 1 then None
    else
      match (ReadTime(payload[1..16]), ReadOptionalTime(payload[16..31]))
      case (Some(createdAt), Some(expiresAt)) =>
        var p := Position(createdAt, payload[31..]);
        if ValidatePosition(p).Some? then None else Some((p, expiresAt))
      case _ => None
  }

  function Decode(codec: Codec, token: string, now: Instant): Result<Position> {
    match Open(codec, token)
    case None => Err(InvalidCursor)
    case Some((p, expiresAt)) =>
      if expiresAt.IsZero() then Ok(p)
      else if now.IsZero() then Err(CursorUnavailable)
      else if !now.Before(expiresAt) then Err(InvalidCursor)
      else Ok(p)
  }

  // ----- Properties -----

  lemma PayloadFields(p: Position, expiry: seq<Byte>)
    requires OnWire(p.createdAt) && |expiry| == TIME_BYTES
    ensures var payload := Payload(p, expiry);
            && payload[0] == 1
            && payload[1..16] == Marshal(p.createdAt)
            && payload[16..31] == expiry
            && payload[31..] == p.id
  {
    PartsOf([1], Marshal(p.createdAt), expiry, p.id);
  }

  lemma PartsOf(a: seq<Byte>, b: seq<Byte>, c: seq<Byte>, d: seq<Byte>)
    ensures var s := a + b + c + d;
            && s[..|a|] == a && s[|a|..|a| + |b|] == b
            && s[|a| + |b|..|a| + |b| + |c|] == c && s[|a| + |b| + |c|..] == d
  {
  }

  /** Every token fits the size bound with room to spare. */
  lemma TokenIsShort(codec: Codec, payload: seq<Byte>)
    requires |payload| == PAYLOAD_BYTES
    ensures |Token(codec, payload)| == 109
  {
    Base64.EncodedLength(payload + Signature(codec, payload));
  }

  lemma OpenReadsPayload(codec: Codec, payload: seq<Byte>)
    requires |payload| == PAYLOAD_BYTES
    ensures Open(codec, Token(codec, payload)) == OpenPayload(payload)
  {
    var wire := payload + Signature(codec, payload);
    var token := Token(codec, payload);
    TokenIsShort(codec, payload);
    Base64.RoundTrip(wire);
    assert token[|PREFIX|..] == Base64.Encode(wire);
    assert wire[..PAYLOAD_BYTES] == payload && wire[PAYLOAD_BYTES..] == Signature(codec, payload);
  }

  lemma OpenPayloadReads(p: Position, expiry: seq<Byte>, expiresAt: Instant)
    requires OnWire(p.createdAt) && |expiry| == TIME_BYTES && ValidatePosition(p).None?
    requires ReadOptionalTime(expiry) == Some(expiresAt)
    ensures OpenPayload(Payload(p, expiry)) == Some((p, expiresAt))
  {
    PayloadFields(p, expiry);
    ReadTimeExactly(Marshal(p.createdAt), p.createdAt);
    assert Position(p.createdAt, p.id) == p;
  }

  lemma ExpiryFieldReads(codec: Codec, now: Instant)
    requires Normalized(now)
    ensures ReadOptionalTime(ExpiryField(codec, now)) ==
            Some(if codec.ttl > 0 then Add(now, codec.ttl) else Instant(0, 0))
  {
    if codec.ttl > 0 {
      var expires := Add(now, codec.ttl);
      MarshalIsNotNoTime(expires);
      ReadTimeExactly(Marshal(expires), expires);
    }
  }

  /**
   * Round trip, for every valid position and every pair of clock readings: a
   * decoded token gives back the position exactly when it does not expire or
   * the decoding clock is before its expiry.
   */
  lemma RoundTrip(codec: Codec, p: Position, now: Instant, later: Instant)
    requires OnWire(p.createdAt) && Normalized(now) && Encode(codec, p, now).Ok?
    ensures Decode(codec, Encode(codec, p, now).value, later) ==
            if codec.ttl == 0 || Add(now, codec.ttl).IsZero() then Ok(p)
            else if later.IsZero() then Err(CursorUnavailable)
            else if later.Before(Add(now, codec.ttl)) then Ok(p)
            else Err(InvalidCursor)
  {
    var expiry := ExpiryField(codec, now);
    ExpiryFieldReads(codec, now);
    OpenReadsPayload(codec, Payload(p, expiry));
    OpenPayloadReads(p, expiry, ReadOptionalTime(expiry).value);
  }

  /** For clocks after the zero time the expiry is never the zero time, so it is never taken for none. */
  lemma RoundTripAfterZeroTime(codec: Codec, p: Position, now: Instant, later: Instant)
    requires OnWire(p.createdAt) && Normalized(now) && Encode(codec, p, now).Ok?
    requires Instant(0, 0).Before(now) && Instant(0, 0).Before(later)
    ensures Decode(codec, Encode(codec, p, now).value, later) == Ok(p) <==>
            codec.ttl == 0 || later.Before(Add(now, codec.ttl))
  {
    RoundTrip(codec, p, now, later);
  }

  /** Before year one it can be: a token whose expiry is the zero time never expires. */
  lemma ZeroTimeExpiryNeverExpires(codec: Codec, p: Position, later: Instant)
    requires OnWire(p.createdAt) && ValidatePosition(p).None? && codec.ttl == 10 * SECOND
    requires p.createdAt.Before(Instant(0, 0))
    ensures Encode(codec, p, Instant(-10, 0)).Ok?
    ensures Decode(codec, Encode(codec, p, Instant(-10, 0)).value, later) == Ok(p)
  {
    assert Add(Instant(-10, 0), codec.ttl) == Instant(0, 0);
    RoundTrip(codec, p, Instant(-10, 0), later);
  }

  // ----- Canonical form -----

  /** The expiry fields that read as an instant: the marshalled one, and the all-zero one for none. */
  lemma ExpiryIsCanonical(field: seq<Byte>, e: Instant)
    requires ReadOptionalTime(field) == Some(e)
    ensures OnWire(e) && |field| == TIME_BYTES
    ensures field == Marshal(e) || (e.IsZero() && field == NO_TIME)
  {
    ReadTimeExactly(field, e);
  }

  lemma OpenPayloadIsCanonical(payload: seq<Byte>, p: Position, e: Instant)
    requires |payload| == PAYLOAD_BYTES && OpenPayload(payload) == Some((p, e))
    ensures OnWire(p.createdAt) && OnWire(e) && ValidatePosition(p).None?
    ensures payload == Payload(p, Marshal(e)) || (e.IsZero() && payload == Payload(p, NO_TIME))
  {
    ReadTimeExactly(payload[1..16], p.createdAt);
    ExpiryIsCanonical(payload[16..31], e);
    PayloadFromFields(payload, p, payload[16..31]);
  }

  lemma PayloadFromFields(payload: seq<Byte>, p: Position, field: seq<Byte>)
    requires |payload| == PAYLOAD_BYTES && OnWire(p.createdAt) && |field| == TIME_BYTES
    requires payload[0] == 1 && payload[1..16] == Marshal(p.createdAt)
    requires payload[16..31] == field && payload[31..] == p.id
    ensures payload == Payload(p, field)
  {
    assert payload == [payload[0]] + payload[1..16] + payload[16..31] + payload[31..];
  }

  /**
   * Every accepted token is the prefix and the encoding of its payload and
   * signature, and its payload is the one its position and expiry determine.
   */
  lemma AcceptedIsCanonical(codec: Codec, token: string, p: Position, e: Instant)
    requires Open(codec, token) == Some((p, e))
    ensures OnWire(p.createdAt) && Normalized(p.createdAt) && p.id != NIL_UUID && !p.createdAt.IsZero() && OnWire(e)
    ensures token == Token(codec, Payload(p, Marshal(e)))
            || (e.IsZero() && token == Token(codec, Payload(p, NO_TIME)))
  {
    var encoded := token[|PREFIX|..];
    var wire := Base64.Decode(encoded).value;
    var payload := wire[..PAYLOAD_BYTES];
    OpenPayloadIsCanonical(payload, p, e);
    RangeCheckIsNormalization(p.createdAt);
    assert wire == payload + wire[PAYLOAD_BYTES..];
    assert token == PREFIX + encoded;
  }

  /** And every such token is accepted: what is accepted is exactly what can be written. */
  lemma AcceptedExactly(codec: Codec, token: string, p: Position, e: Instant)
    ensures Open(codec, token) == Some((p, e)) <==>
            && OnWire(p.createdAt) && OnWire(e) && ValidatePosition(p).None?
            && (token == Token(codec, Payload(p, Marshal(e)))
                || (e == Instant(0, 0) && token == Token(codec, Payload(p, NO_TIME))))
  {
    if Open(codec, token) == Some((p, e)) {
      AcceptedIsCanonical(codec, token, p, e);
      RangeCheckIsNormalization(p.createdAt);
    } else if OnWire(p.createdAt) && OnWire(e) && ValidatePosition(p).None? {
      WrittenIsAccepted(codec, p, e);
    }
  }

  lemma WrittenIsAccepted(codec: Codec, p: Position, e: Instant)
    requires OnWire(p.createdAt) && OnWire(e) && ValidatePosition(p).None?
    ensures Open(codec, Token(codec, Payload(p, Marshal(e)))) == Some((p, e))
    ensures Open(codec, Token(codec, Payload(p, NO_TIME))) == Some((p, Instant(0, 0)))
  {
    MarshalIsNotNoTime(e);
    ReadTimeExactly(Marshal(e), e);
    OpenReadsPayload(codec, Payload(p, Marshal(e)));
    OpenReadsPayload(codec, Payload(p, NO_TIME));
    OpenPayloadReads(p, Marshal(e), e);
    OpenPayloadReads(p, NO_TIME, Instant(0, 0));
  }

  /** Two accepted tokens that carry the same position and the same expiry are the same string. */
  lemma TokensAreUnique(codec: Codec, a: string, b: string, p: Position, e: Instant)
    requires Open(codec, a) == Some((p, e)) && Open(codec, b) == Some((p, e)) && !e.IsZero()
    ensures a == b
  {
    AcceptedIsCanonical(codec, a, p, e);
    AcceptedIsCanonical(codec, b, p, e);
  }

  /** Without an expiry there are exactly two: the all-zero field and the zero time both mean none. */
  lemma TwoTokensWithoutExpiry(codec: Codec, p: Position)
    requires OnWire(p.createdAt) && ValidatePosition(p).None?
    ensures var a, b := Token(codec, Payload(p, NO_TIME)), Token(codec, Payload(p, Marshal(Instant(0, 0))));
            && a != b
            && Open(codec, a) == Some((p, Instant(0, 0)))
            && Open(codec, b) == Some((p, Instant(0, 0)))
  {
    var zero := Instant(0, 0);
    var a, b := Payload(p, NO_TIME), Payload(p, Marshal(zero));
    MarshalIsNotNoTime(zero);
    ReadTimeExactly(Marshal(zero), zero);
    OpenReadsPayload(codec, a);
    OpenReadsPayload(codec, b);
    OpenPayloadReads(p, NO_TIME, zero);
    OpenPayloadReads(p, Marshal(zero), zero);
    PayloadFields(p, NO_TIME);
    PayloadFields(p, Marshal(zero));
    if Token(codec, a) == Token(codec, b) {
      TokenDeterminesPayload(codec, a, b);
    }
  }

  lemma TokenDeterminesPayload(codec: Codec, a: seq<Byte>, b: seq<Byte>)
    requires |a| == |b| && Token(codec, a) == Token(codec, b)
    ensures a == b
  {
    var wa, wb := a + Signature(codec, a), b + Signature(codec, b);
    assert Token(codec, a)[|PREFIX|..] == Base64.Encode(wa) && Token(codec, b)[|PREFIX|..] == Base64.Encode(wb);
    Base64.RoundTrip(wa);
    Base64.RoundTrip(wb);
    assert a == wa[..|a|] && b == wb[..|b|];
  }

  // ----- Purposes keep tokens apart -----

  /** The message that is signed determines both the purpose and the payload. */
  lemma {:induction false} MessagesAreUnambiguous(p: seq<Byte>, p': seq<Byte>, q: seq<Byte>, q': seq<Byte>)
    requires 0 !in p && 0 !in p' && Message(p, q) == Message(p', q')
    ensures p == p' && q == q'
  {
    var m := Message(p, q);
    assert forall i :: 0 <= i < |p| ==> m[i] == p[i];
    assert forall i :: 0 <= i < |p'| ==> m[i] == p'[i];
    assert m[|p|] == 0 && m[|p'|] == 0;
    assert p == m[..|p|] && p' == m[..|p'|];
    assert q == m[|p| + 1..] && q' == m[|p'| + 1..];
  }

  /** A token accepted under two purposes of one key exhibits a collision of the hash. */
  lemma PurposesSeparateTokens(a: Codec, b: Codec, token: string)
    requires a.hmac == b.hmac && ValidConfig(a) && ValidConfig(b) && a.purpose != b.purpose
    requires Open(a, token).Some? && Open(b, token).Some?
    ensures exists m, m' :: m != m' && a.hmac(m) == a.hmac(m')
  {
    var payload := Base64.Decode(token[|PREFIX|..]).value[..PAYLOAD_BYTES];
    var m, m' := Message(a.purpose, payload), Message(b.purpose, payload);
    PurposeHasNoZero(a);
    PurposeHasNoZero(b);
    if m == m' { MessagesAreUnambiguous(a.purpose, b.purpose, payload, payload); }
    assert m != m' && a.hmac(m) == a.hmac(m');
  }

  // ----- The buffer Encode fills -----

  /** The bytes of `s` with those from `offset` on replaced by `bytes`. */
  function Overlay(s: seq<Byte>, offset: nat, bytes: seq<Byte>): seq<Byte>
    requires offset + |bytes| <= |s|
  {
    s[..offset] + bytes + s[offset + |bytes|..]
  }

  /** Go's copy into the part of a buffer from `offset` on. */
  method CopyInto(buffer: array<Byte>, offset: nat, bytes: seq<Byte>)
    requires offset + |bytes| <= buffer.Length
    modifies buffer
    ensures buffer[..] == Overlay(old(buffer[..]), offset, bytes)
  {
    for i := 0 to |bytes|
      invariant forall j :: 0 <= j < buffer.Length ==>
                  buffer[j] == if offset <= j < offset + i then bytes[j - offset] else old(buffer[j])
    {
      buffer[offset + i] := bytes[i];
    }
  }

  /** Writes an instant's fifteen bytes at an offset of the buffer. */
  method PutTime(buffer: array<Byte>, offset: nat, t: Instant)
    requires offset + TIME_BYTES <= buffer.Length && OnWire(t)
    modifies buffer
    ensures buffer[..] == Overlay(old(buffer[..]), offset, Marshal(t))
  {
    CopyInto(buffer, offset, Marshal(t));
  }

  /** The three fields, written one after the other, fill the buffer behind its first byte. */
  lemma FieldsFillBuffer(s: seq<Byte>, position: seq<Byte>, expiry: seq<Byte>, id: seq<Byte>)
    requires |s| == PAYLOAD_BYTES && |position| == |expiry| == TIME_BYTES && |id| == 16
    ensures Overlay(Overlay(Overlay(s, 1, position), 1 + TIME_BYTES, expiry), 31, id) == s[..1] + position + expiry + id
  {
    var one := Overlay(s, 1, position);
    assert one[..16] == s[..1] + position;
    var two := Overlay(one, 1 + TIME_BYTES, expiry);
    assert two[..31] == one[..16] + expiry;
  }

  /** The payload buffer, filled field by field; the expiry field stays zero without a lifetime. */
  method FillPayload(codec: Codec, p: Position, now: Instant) returns (payload: seq<Byte>)
    requires OnWire(p.createdAt) && Normalized(now)
    ensures payload == Payload(p, ExpiryField(codec, now))
  {
    var buffer := new Byte[PAYLOAD_BYTES](_ => 0);
    buffer[0] := 1;
    ghost var start := buffer[..];
    assert start[..1] == [1] && start[16..31] == NO_TIME;
    PutTime(buffer, 1, p.createdAt);
    if codec.ttl > 0 {
      PutTime(buffer, 1 + TIME_BYTES, Add(now, codec.ttl));
    } else {
      assert buffer[..] == Overlay(buffer[..], 1 + TIME_BYTES, NO_TIME) by {
        assert buffer[16..31] == start[16..31];
      }
    }
    CopyInto(buffer, 31, p.id);
    payload := buffer[..];
    FieldsFillBuffer(start, Marshal(p.createdAt), ExpiryField(codec, now), p.id);
  }

  /** Encode as it builds the token. */
  method EncodeToken(codec: Codec, p: Position, now: Instant) returns (r: Result<string>)
    requires OnWire(p.createdAt) && Normalized(now)
    ensures r == Encode(codec, p, now)
    ensures r.Ok? ==> |r.value| <= MAX_CURSOR_BYTES
  {
    if ValidatePosition(p).Some? {
      return Err(ValidatePosition(p).value);
    }
    if now.IsZero() {
      return Err(CursorUnavailable);
    }
    if codec.ttl > 0 {
      var expires := Add(now, codec.ttl);
      if !now.Before(expires) {
        return Err(CursorUnavailable);
      }
      if !p.createdAt.Before(expires) {
        return Err(CursorState);
      }
    }
    var payload := FillPayload(codec, p, now);
    TokenIsShort(codec, payload);
    return Ok(PREFIX + Base64.Encode(payload + Signature(codec, payload)));
  }
}
