/**
 * The 4-byte length prefix of a frame, as `BitConverter` produces and reads it
 * on a little-endian host.
 */
module ByteOrder {

  newtype byte = x: int | 0 <= x < 256

  /** Width of the length prefix (`SizeHelper.Normal`, the width of a `uint`). */
  const HeaderSize: nat := 4

  const TwoTo31: int := 0x8000_0000
  const TwoTo32: int := 0x1_0000_0000

  /** Largest `List<byte>.Count`: `int.MaxValue`. */
  const MaxListCount: int := 0x7FFF_FFFF

  /** `BitConverter.GetBytes((uint)v)`, least significant byte first. */
  function UInt32ToBytes(v: int): (r: seq<byte>)
    requires 0 <= v < TwoTo32
    ensures |r| == HeaderSize
  {
    [(v % 256) as byte, (v / 256 % 256) as byte, (v / 65536 % 256) as byte, (v / 16777216) as byte]
  }

  /** The unsigned value of the first four bytes, least significant first. */
  function BytesToUInt32(b: seq<byte>): (v: int)
    requires |b| >= HeaderSize
    ensures 0 <= v < TwoTo32
  {
    b[0] as int + 256 * b[1] as int + 65536 * b[2] as int + 16777216 * b[3] as int
  }

  /**
   * `BitConverter.ToInt32(b, 0)`: the same four bytes read as a two's complement
   * signed integer, so a top byte of 0x80 or more gives a negative value.
   */
  function BytesToInt32(b: seq<byte>): (v: int)
    requires |b| >= HeaderSize
    ensures -TwoTo31 <= v < TwoTo31
    ensures v >= 0 <==> b[3] < 128
    ensures (v - BytesToUInt32(b)) % TwoTo32 == 0
  {
    var u := BytesToUInt32(b);
    if u < TwoTo31 then u else u - TwoTo32
  }

  /** Reading back an encoded `uint` gives the value that was written. */
  lemma {:induction false} UInt32RoundTrip(v: int)
    requires 0 <= v < TwoTo32
    ensures BytesToUInt32(UInt32ToBytes(v)) == v
  {
    var q1 := v / 256;
    var q2 := q1 / 256;
    var q3 := q2 / 256;
    assert v == v % 256 + 256 * q1;
    assert q1 == q1 % 256 + 256 * q2;
    assert q2 == q2 % 256 + 256 * q3;
    assert q2 == v / 65536;
    assert q3 == v / 16777216;
  }

  /**
   * A length below 2^31 (every `List<byte>.Count`) survives the trip through
   * `GetBytes((uint)n)` and `ToInt32`.
   */
  lemma {:induction false} LengthPrefixRoundTrip(n: int)
    requires 0 <= n <= MaxListCount
    ensures BytesToInt32(UInt32ToBytes(n)) == n
  {
    UInt32RoundTrip(n);
  }
}
