/**
  Base-128 varints with zigzag for signed values, as Go's encoding/binary reads and writes them
  (the "Base 128 Varints" section of the Protocol Buffers encoding specification).
*/
module Varints {
  import opened Frames

  const MAX_VARINT_LEN: nat := 10

  /** The outcome of reading a value off the front of a byte sequence. */
  datatype Parse<+T> = Parsed(value: T, rest: seq<Byte>) | Malformed {
    predicate IsFailure() {
      Malformed?
    }

    function PropagateFailure<U>(): Parse<U>
      requires Malformed?
    {
      Malformed
    }

    function Extract(): (T, seq<Byte>)
      requires Parsed?
    {
      (value, rest)
    }

    /** Reading succeeded with the same value and `more` left over in addition. */
    function Plus(more: seq<Byte>): Parse<T> {
      if Malformed? then Malformed else Parsed(value, rest + more)
    }
  }

  // ----- Unsigned varints -----

  function PutUvarint(x: nat): (bytes: seq<Byte>)
    ensures bytes != []
  {
    if x < 0x80 then [x] else [x % 0x80 + 0x80] + PutUvarint(x / 0x80)
  }

  /** One more than the largest value that the bytes from position `k` on can add: 2^(64 - 7k). */
  function Room(k: nat): (room: nat)
    requires k < MAX_VARINT_LEN
    ensures room >= 2
    decreases MAX_VARINT_LEN - k
  {
    if k == MAX_VARINT_LEN - 1 then 2 else 0x80 * Room(k + 1)
  }

  lemma RoomIsUint64()
    ensures Room(0) == 0x1_0000_0000_0000_0000
  {
    assert Room(9) == 2;
    assert Room(8) == 0x100;
    assert Room(7) == 0x8000;
    assert Room(6) == 0x40_0000;
    assert Room(5) == 0x2000_0000;
    assert Room(4) == 0x10_0000_0000;
    assert Room(3) == 0x800_0000_0000;
    assert Room(2) == 0x4_0000_0000_0000;
    assert Room(1) == 0x200_0000_0000_0000;
  }

  /** `ReadUvarint` after `k` continuation bytes. */
  function UvarintFrom(s: seq<Byte>, k: nat): (p: Parse<nat>)
    requires k <= MAX_VARINT_LEN
    ensures p.Parsed? ==> |p.rest| < |s|
    decreases MAX_VARINT_LEN - k
  {
    if k == MAX_VARINT_LEN || s == [] then Malformed
    else if s[0] < 0x80 then
      if k == MAX_VARINT_LEN - 1 && s[0] > 1 then Malformed else Parsed(s[0], s[1..])
    else
      var (high, rest) :- UvarintFrom(s[1..], k + 1);
      Parsed(s[0] - 0x80 + 0x80 * high, rest)
  }

  /** What is read fits the room that was left. */
  lemma {:induction false} UvarintFromFits(s: seq<Byte>, k: nat)
    requires k <= MAX_VARINT_LEN
    ensures UvarintFrom(s, k).Parsed? ==> k < MAX_VARINT_LEN && UvarintFrom(s, k).value < Room(k)
    decreases MAX_VARINT_LEN - k
  {
    if k < MAX_VARINT_LEN && s != [] && s[0] >= 0x80 {
      UvarintFromFits(s[1..], k + 1);
    }
  }

  function ReadUvarint(s: seq<Byte>): (p: Parse<Uint64>)
    ensures p.Parsed? ==> |p.rest| < |s|
  {
    RoomIsUint64();
    UvarintFromFits(s, 0);
    var (value, rest) :- UvarintFrom(s, 0);
    Parsed(value, rest)
  }

  /** Seven bits a byte, the lowest first, all but the last marked, and no more bytes than needed. */
  predicate Canonical(bytes: seq<Byte>) {
    && bytes != []
    && if |bytes| == 1 then bytes[0] < 0x80
       else bytes[0] >= 0x80 && Canonical(bytes[1..]) && Numeral(bytes[1..]) > 0
  }

  function Numeral(bytes: seq<Byte>): (n: int) {
    if |bytes| <= 1 then (if bytes == [] then 0 else bytes[0]) else bytes[0] - 0x80 + 0x80 * Numeral(bytes[1..])
  }

  lemma {:induction false} PutIsCanonical(x: nat)
    ensures Canonical(PutUvarint(x)) && Numeral(PutUvarint(x)) == x
  {
    if x >= 0x80 {
      var bytes := PutUvarint(x);
      assert bytes[1..] == PutUvarint(x / 0x80);
      PutIsCanonical(x / 0x80);
    }
  }

  lemma {:induction false} CanonicalIsRead(bytes: seq<Byte>, k: nat, tail: seq<Byte>)
    requires Canonical(bytes) && k < MAX_VARINT_LEN && Numeral(bytes) < Room(k)
    ensures UvarintFrom(bytes + tail, k) == Parsed(Numeral(bytes), tail)
    decreases |bytes|
  {
    var s := bytes + tail;
    if |bytes| == 1 {
      assert s[1..] == tail;
    } else {
      assert s[1..] == bytes[1..] + tail;
      CanonicalIsRead(bytes[1..], k + 1, tail);
    }
  }

  lemma UvarintFromRoundTrip(x: nat, k: nat, tail: seq<Byte>)
    requires k < MAX_VARINT_LEN && x < Room(k)
    ensures UvarintFrom(PutUvarint(x) + tail, k) == Parsed(x, tail)
  {
    PutIsCanonical(x);
    CanonicalIsRead(PutUvarint(x), k, tail);
  }

  lemma UvarintRoundTrip(x: Uint64, tail: seq<Byte>)
    ensures ReadUvarint(PutUvarint(x) + tail) == Parsed(x, tail)
  {
    RoomIsUint64();
    UvarintFromRoundTrip(x, 0, tail);
  }

  /** Every byte but the last says that more follow. */
  predicate Marked(bytes: seq<Byte>) {
    bytes != [] && bytes[|bytes| - 1] < 0x80 && forall i :: 0 <= i < |bytes| - 1 ==> bytes[i] >= 0x80
  }

  lemma MarkedRest(bytes: seq<Byte>, k: nat)
    requires Marked(bytes) && |bytes| > 1 && k < MAX_VARINT_LEN - 1
    ensures bytes[0] >= 0x80 && Marked(bytes[1..])
    ensures Numeral(bytes) == bytes[0] - 0x80 + 0x80 * Numeral(bytes[1..])
    ensures Numeral(bytes) < Room(k) <==> Numeral(bytes[1..]) < Room(k + 1)
  {
    var rest := bytes[1..];
    assert rest[|rest| - 1] == bytes[|bytes| - 1];
  }

  /** The last byte fits the room that is left, or the number is malformed. */
  lemma LastIsRead(b: Byte, k: nat, tail: seq<Byte>)
    requires b < 0x80 && k < MAX_VARINT_LEN
    ensures UvarintFrom([b] + tail, k) == if b < Room(k) then Parsed(b, tail) else Malformed
  {
    assert ([b] + tail)[1..] == tail;
  }

  lemma NextIsRead(b: Byte, k: nat, rest: seq<Byte>)
    requires b >= 0x80 && k < MAX_VARINT_LEN
    ensures UvarintFrom([b] + rest, k) ==
              match UvarintFrom(rest, k + 1)
              case Malformed => Malformed
              case Parsed(high, left) => Parsed(b - 0x80 + 0x80 * high, left)
  {
    assert ([b] + rest)[1..] == rest;
  }

  lemma {:induction false} MarkedIsRead(bytes: seq<Byte>, k: nat, tail: seq<Byte>)
    requires Marked(bytes) && k < MAX_VARINT_LEN
    ensures UvarintFrom(bytes + tail, k) ==
              if |bytes| <= MAX_VARINT_LEN - k && Numeral(bytes) < Room(k) then Parsed(Numeral(bytes), tail)
              else Malformed
    decreases |bytes|
  {
    if |bytes| == 1 {
      assert bytes == [bytes[0]];
      LastIsRead(bytes[0], k, tail);
    } else {
      assert bytes + tail == [bytes[0]] + (bytes[1..] + tail);
      NextIsRead(bytes[0], k, bytes[1..] + tail);
      if k < MAX_VARINT_LEN - 1 {
        MarkedRest(bytes, k);
        MarkedIsRead(bytes[1..], k + 1, tail);
      } else {
        assert UvarintFrom(bytes[1..] + tail, k + 1) == Malformed;
      }
    }
  }

  /** A number is read off its marked bytes exactly when they are at most ten and it fits 64 bits; padding is fine. */
  lemma UvarintReadExactly(bytes: seq<Byte>, tail: seq<Byte>)
    requires Marked(bytes)
    ensures ReadUvarint(bytes + tail) ==
              if |bytes| <= 10 && Numeral(bytes) < 0x1_0000_0000_0000_0000 then Parsed(Numeral(bytes), tail)
              else Malformed
  {
    RoomIsUint64();
    MarkedIsRead(bytes, 0, tail);
  }

  /** Bytes that all say more follow are no number. */
  lemma {:induction false} UnfinishedIsMalformed(s: seq<Byte>, k: nat)
    requires k <= MAX_VARINT_LEN && forall i :: 0 <= i < |s| ==> s[i] >= 0x80
    ensures UvarintFrom(s, k) == Malformed
    decreases MAX_VARINT_LEN - k
  {
    if k < MAX_VARINT_LEN && s != [] {
      UnfinishedIsMalformed(s[1..], k + 1);
    }
  }

  lemma {:induction false} UvarintFromLength(x: nat, k: nat)
    requires k < MAX_VARINT_LEN && x < Room(k)
    ensures |PutUvarint(x)| <= MAX_VARINT_LEN - k
    decreases MAX_VARINT_LEN - k
  {
    if x >= 0x80 {
      UvarintFromLength(x / 0x80, k + 1);
    }
  }

  lemma UvarintLength(x: Uint64)
    ensures |PutUvarint(x)| <= MAX_VARINT_LEN
  {
    RoomIsUint64();
    UvarintFromLength(x, 0);
  }

  /** Bytes after a complete varint do not influence how it is read. */
  lemma {:induction false} UvarintFromLocal(s: seq<Byte>, k: nat, more: seq<Byte>)
    requires k <= MAX_VARINT_LEN && UvarintFrom(s, k).Parsed?
    ensures UvarintFrom(s + more, k) == UvarintFrom(s, k).Plus(more)
    decreases MAX_VARINT_LEN - k
  {
    assert (s + more)[1..] == s[1..] + more;
    if s[0] >= 0x80 {
      UvarintFromLocal(s[1..], k + 1, more);
    }
  }

  lemma UvarintLocal(s: seq<Byte>, more: seq<Byte>)
    requires ReadUvarint(s).Parsed?
    ensures ReadUvarint(s + more) == ReadUvarint(s).Plus(more)
  {
    UvarintFromLocal(s, 0, more);
  }

  // ----- Signed varints -----

  function ZigZag(x: Int64): (u: Uint64)
    ensures UnZigZag(u) == x
  {
    if x >= 0 then 2 * x else -2 * x - 1
  }

  function UnZigZag(u: Uint64): Int64 {
    if u % 2 == 0 then u / 2 else -(u / 2) - 1
  }

  function PutVarint(x: Int64): seq<Byte> {
    PutUvarint(ZigZag(x))
  }

  function ReadVarint(s: seq<Byte>): (p: Parse<Int64>)
    ensures p.Parsed? ==> |p.rest| < |s|
  {
    var (u, rest) :- ReadUvarint(s);
    Parsed(UnZigZag(u), rest)
  }

  lemma VarintRoundTrip(x: Int64, tail: seq<Byte>)
    ensures ReadVarint(PutVarint(x) + tail) == Parsed(x, tail)
  {
    UvarintRoundTrip(ZigZag(x), tail);
  }
}
