/** Numbers as bytes: the little- and big-endian fields of archives, cabinets and WAV images. */
module Numbers {
  import opened Common

  /** 32-bit arithmetic wraps. */
  function U32(value: nat): (r: nat)
    ensures r < TWO_TO_32 && r <= value
    ensures value < TWO_TO_32 ==> r == value
  {
    value % TWO_TO_32
  }

  /** Wrapping a part of a sum changes nothing once the sum is wrapped. */
  lemma U32OfSum(a: nat, b: nat)
    ensures U32(U32(a) + b) == U32(a + b)
  {
    var over := a / TWO_TO_32;
    assert a == TWO_TO_32 * over + U32(a);
    var more := (U32(a) + b) / TWO_TO_32;
    assert U32(a) + b == TWO_TO_32 * more + U32(U32(a) + b);
    Remainder(a + b, over + more, U32(U32(a) + b));
  }

  /** A number's k-th byte counted from the least significant. */
  function ByteAt(value: nat, k: nat): Byte
    requires k < 4
  {
    if k == 0 then value % 256
    else if k == 1 then value / 256 % 256
    else if k == 2 then value / 256 / 256 % 256
    else value / 256 / 256 / 256 % 256
  }

  function BigEndian(value: nat): (bytes: Bytes)
    ensures |bytes| == 4
  {
    [ByteAt(value, 3), ByteAt(value, 2), ByteAt(value, 1), ByteAt(value, 0)]
  }

  function LittleEndian(value: nat): (bytes: Bytes)
    ensures |bytes| == 4
  {
    [ByteAt(value, 0), ByteAt(value, 1), ByteAt(value, 2), ByteAt(value, 3)]
  }

  function Join(b3: Byte, b2: Byte, b1: Byte, b0: Byte): nat {
    b3 * 0x100_0000 + b2 * 0x1_0000 + b1 * 0x100 + b0
  }

  function ReadBigEndian(bytes: Bytes, at: nat): nat
    requires at + 4 <= |bytes|
  {
    Join(bytes[at], bytes[at + 1], bytes[at + 2], bytes[at + 3])
  }

  function ReadLittleEndian(bytes: Bytes, at: nat): nat
    requires at + 4 <= |bytes|
  {
    Join(bytes[at + 3], bytes[at + 2], bytes[at + 1], bytes[at])
  }

  /** Four bytes keep a number modulo 2^32. */
  lemma JoinOfBytes(value: nat)
    ensures Join(ByteAt(value, 3), ByteAt(value, 2), ByteAt(value, 1), ByteAt(value, 0)) == value % TWO_TO_32
  {
    var first := value / 256;
    var second := first / 256;
    var third := second / 256;
    var over := third / 256;
    assert value == 256 * first + ByteAt(value, 0);
    assert first == 256 * second + ByteAt(value, 1);
    assert second == 256 * third + ByteAt(value, 2);
    assert third == 256 * over + ByteAt(value, 3);
    Remainder(value, over, Join(ByteAt(value, 3), ByteAt(value, 2), ByteAt(value, 1), ByteAt(value, 0)));
  }

  lemma Remainder(value: nat, over: nat, rest: nat)
    requires value == TWO_TO_32 * over + rest && rest < TWO_TO_32
    ensures value % TWO_TO_32 == rest
  {
  }

  lemma NumbersRoundTrip(value: nat)
    ensures ReadBigEndian(BigEndian(value), 0) == value % TWO_TO_32
    ensures ReadLittleEndian(LittleEndian(value), 0) == value % TWO_TO_32
  {
    hide Join, ByteAt;
    JoinOfBytes(value);
  }

  /** The most significant byte stands first: comparing the bytes in order compares the numbers. */
  predicate Precedes(a: Bytes, b: Bytes)
    requires |a| == |b|
  {
    a != [] && (a[0] < b[0] || (a[0] == b[0] && Precedes(a[1..], b[1..])))
  }

  lemma JoinPrecedes(a3: Byte, a2: Byte, a1: Byte, a0: Byte, b3: Byte, b2: Byte, b1: Byte, b0: Byte)
    ensures Join(a3, a2, a1, a0) < Join(b3, b2, b1, b0) <==> Precedes([a3, a2, a1, a0], [b3, b2, b1, b0])
  {
    var x, y := [a3, a2, a1, a0], [b3, b2, b1, b0];
    assert x[1..] == [a2, a1, a0] && y[1..] == [b2, b1, b0];
    assert [a2, a1, a0][1..] == [a1, a0] && [b2, b1, b0][1..] == [b1, b0];
    assert [a1, a0][1..] == [a0] && [b1, b0][1..] == [b0];
    assert !Precedes([a0][1..], [b0][1..]);
    assert Precedes([a0], [b0]) <==> a0 < b0;
    assert Precedes([a1, a0], [b1, b0]) <==> a1 < b1 || (a1 == b1 && a0 < b0);
  }

  lemma BigEndianKeepsOrder(a: nat, b: nat)
    requires a < TWO_TO_32 && b < TWO_TO_32
    ensures a < b <==> Precedes(BigEndian(a), BigEndian(b))
  {
    hide ByteAt, Join, Precedes;
    JoinOfBytes(a);
    JoinOfBytes(b);
    JoinPrecedes(ByteAt(a, 3), ByteAt(a, 2), ByteAt(a, 1), ByteAt(a, 0),
                 ByteAt(b, 3), ByteAt(b, 2), ByteAt(b, 1), ByteAt(b, 0));
  }

  /** The other order is the reverse. */
  lemma LittleEndianIsReversed(value: nat)
    ensures forall k :: 0 <= k < 4 ==> LittleEndian(value)[k] == BigEndian(value)[3 - k]
  {
  }

  // ----- 16 bits

  function Word(low: int, high: int): int {
    low + 256 * high
  }

  function Read16(bytes: Bytes, at: nat): nat
    requires at + 2 <= |bytes|
  {
    Word(bytes[at], bytes[at + 1])
  }

  function LittleEndian16(value: nat): (bytes: Bytes)
    ensures |bytes| == 2
  {
    [ByteAt(value, 0), ByteAt(value, 1)]
  }

  lemma WordOfBytes(value: nat)
    ensures Word(ByteAt(value, 0), ByteAt(value, 1)) == value % TWO_TO_16
  {
    var first := value / 256;
    var over := first / 256;
    assert value == 256 * first + ByteAt(value, 0);
    assert first == 256 * over + ByteAt(value, 1);
    assert value == TWO_TO_16 * over + Word(ByteAt(value, 0), ByteAt(value, 1));
  }
}
