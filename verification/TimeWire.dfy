/** The fifteen-byte binary form of a UTC instant, as time.Time.MarshalBinary writes and UnmarshalBinary reads it. */
module TimeWire {
  import opened Items

  const TIME_BYTES := 15
  const TWO_30 := 0x4000_0000
  const TWO_31 := 0x8000_0000
  const TWO_63 := 0x8000_0000_0000_0000
  const TWO_64 := 0x1_0000_0000_0000_0000

  /** Instants a time.Time can hold after it has been read from the wire. */
  predicate OnWire(t: Instant) {
    -TWO_63 <= t.sec < TWO_63 && 0 <= t.nsec < TWO_30
  }

  /** Instants that clocks and constructors produce. */
  predicate Normalized(t: Instant) {
    -TWO_63 <= t.sec < TWO_63 && 0 <= t.nsec < SECOND
  }

  // ----- Big-endian numbers -----

  function BigEndian(n: nat, width: nat): (bytes: seq<Byte>)
    ensures |bytes| == width
  {
    if width == 0 then [] else BigEndian(n / 256, width - 1) + [n % 256]
  }

  function Number(bytes: seq<Byte>): nat {
    if bytes == [] then 0 else Number(bytes[..|bytes| - 1]) * 256 + bytes[|bytes| - 1]
  }

  function Bound(width: nat): nat {
    if width == 0 then 1 else 256 * Bound(width - 1)
  }

  lemma {:induction false} NumberOfBigEndian(n: nat, width: nat)
    requires n < Bound(width)
    ensures Number(BigEndian(n, width)) == n
    decreases width
  {
    if width == 0 {
    } else {
      NumberOfBigEndian(n / 256, width - 1);
      var bytes := BigEndian(n, width);
      assert bytes[..|bytes| - 1] == BigEndian(n / 256, width - 1);
    }
  }

  lemma Bounds()
    ensures Bound(4) == 0x1_0000_0000 && Bound(8) == TWO_64
  {
    assert Bound(2) == 0x1_0000;
    assert Bound(6) == 0x1_0000_0000_0000;
  }

  // ----- Instants -----

  function Unsigned64(n: int): nat {
    n % TWO_64
  }

  function Signed64(n: int): int {
    if n % TWO_64 >= TWO_63 then n % TWO_64 - TWO_64 else n % TWO_64
  }

  /** Version 1, seconds, nanoseconds, and the offset -1 that marks UTC. */
  function Marshal(t: Instant): (bytes: seq<Byte>)
    requires OnWire(t)
    ensures |bytes| == TIME_BYTES
  {
    [1] + BigEndian(Unsigned64(t.sec), 8) + BigEndian(t.nsec, 4) + [255, 255]
  }

  /** Seconds of year one up to 1885, where the packed form with a monotonic reading counts from. */
  const WALL_EPOCH := 59_453_308_800

  /**
   * The UTC instant UnmarshalBinary leaves in the value. The nanoseconds are
   * stored in a packed word: their sign bit turns on its monotonic form, and
   * only their low thirty bits are read back as nanoseconds.
   */
  function Unmarshal(source: seq<Byte>): (t: Option<Instant>)
    ensures t.Some? ==> OnWire(t.value)
  {
    if |source| != TIME_BYTES || source[0] != 1 then None
    else
      var seconds := Signed64(Number(source[1..9]));
      var nanos := Number(source[9..13]);
      var sec := if nanos >= TWO_31 then WALL_EPOCH + 0x1_FFFF_FFFE + nanos / TWO_30 % 2 else seconds;
      Some(Instant(sec, nanos % TWO_30))
  }

  /** A time field is accepted only in its canonical form. */
  function ReadTime(source: seq<Byte>): (t: Option<Instant>)
    ensures t.Some? ==> OnWire(t.value)
  {
    match Unmarshal(source)
    case None => None
    case Some(value) => if Marshal(value) == source then Some(value) else None
  }

  const NO_TIME: seq<Byte> := [0, 0, 0, 0, 0, 0, 0, 0, 0, 0, 0, 0, 0, 0, 0]

  /** The all-zero field stands for no expiry. */
  function ReadOptionalTime(source: seq<Byte>): (t: Option<Instant>)
    ensures t.Some? ==> OnWire(t.value)
  {
    if source == NO_TIME then Some(Instant(0, 0)) else ReadTime(source)
  }

  lemma SignedOfUnsigned(n: int)
    requires -TWO_63 <= n < TWO_63
    ensures Signed64(Unsigned64(n)) == n
  {
  }

  lemma MarshalFields(t: Instant)
    requires OnWire(t)
    ensures var bytes := Marshal(t);
            && bytes[0] == 1
            && bytes[1..9] == BigEndian(Unsigned64(t.sec), 8)
            && bytes[9..13] == BigEndian(t.nsec, 4)
            && bytes[13..] == [255, 255]
  {
  }

  lemma MarshalNumbers(t: Instant)
    requires OnWire(t)
    ensures Marshal(t)[0] == 1 && Number(Marshal(t)[1..9]) == Unsigned64(t.sec) && Number(Marshal(t)[9..13]) == t.nsec
  {
    MarshalFields(t);
    Bounds();
    NumberOfBigEndian(Unsigned64(t.sec), 8);
    NumberOfBigEndian(t.nsec, 4);
  }

  lemma UnmarshalOfMarshal(t: Instant)
    requires OnWire(t)
    ensures Unmarshal(Marshal(t)) == Some(t)
  {
    MarshalNumbers(t);
    SignedOfUnsigned(t.sec);
  }

  /** Reading accepts exactly what writing produces: every field has one instant and every instant one field. */
  lemma ReadTimeExactly(source: seq<Byte>, t: Instant)
    ensures ReadTime(source) == Some(t) <==> OnWire(t) && source == Marshal(t)
  {
    if OnWire(t) && source == Marshal(t) { UnmarshalOfMarshal(t); }
  }

  /** A marshalled expiry is never taken for the field that means no expiry. */
  lemma MarshalIsNotNoTime(t: Instant)
    requires OnWire(t)
    ensures Marshal(t) != NO_TIME
  {
    assert Marshal(t)[0] == 1 && NO_TIME[0] == 0;
  }

  // ----- Adding a duration -----

  /** time.Time.Add of a non-negative duration: the seconds saturate at the largest 64-bit value. */
  function Add(t: Instant, d: nat): (r: Instant)
    requires Normalized(t)
    ensures Normalized(r)
  {
    var nsec := t.nsec + d % SECOND;
    var carry := if nsec >= SECOND then 1 else 0;
    var sec := t.sec + d / SECOND + carry;
    Instant(if sec >= TWO_63 then TWO_63 - 1 else sec, nsec - carry * SECOND)
  }

  /** The instant as a number of nanoseconds. */
  function Nanos(t: Instant): int {
    t.sec * SECOND + t.nsec
  }

  /** One instant is before another exactly when it has fewer nanoseconds. */
  lemma BeforeIsFewer(t: Instant, u: Instant)
    requires Normalized(t) && Normalized(u)
    ensures t.Before(u) <==> Nanos(t) < Nanos(u)
  {
  }

  /** What a number of nanoseconds becomes when its whole seconds stop at the largest 64-bit value. */
  function Saturated(nanos: int): int {
    if nanos < TWO_63 * SECOND then nanos else (TWO_63 - 1) * SECOND + nanos % SECOND
  }

  /** Add moves the instant by exactly the duration, as far as the seconds go. */
  lemma AddIsExact(t: Instant, d: nat)
    requires Normalized(t)
    ensures Nanos(Add(t, d)) == Saturated(Nanos(t) + d)
  {
    var r := Add(t, d);
    var sec := t.sec + d / SECOND + (if t.nsec + d % SECOND >= SECOND then 1 else 0);
    assert Nanos(t) + d == sec * SECOND + r.nsec;
  }
}
