/** Machine words of the firmware: C's `uint32_t` and `uint8_t` as bounded
    integers, with the modulo-2^32 wrap-around of unsigned arithmetic written
    out, and the big-endian byte order every bus frame uses for its 32-bit
    values. */
module Words {

  const Two32: int := 0x1_0000_0000

  /** C `uint32_t`. */
  type u32 = x: int | 0 <= x < 0x1_0000_0000

  /** `uint8_t`, and the `char` of the CAN buffers (unsigned on the ARM target). */
  type byte = x: int | 0 <= x < 0x100

  /** Unsigned 32-bit addition: the mathematical sum, wrapped once past 2^32. */
  function Add32(a: u32, b: u32): (r: u32)
    ensures a + b < Two32 ==> r == a + b
    ensures a + b >= Two32 ==> r == a + b - Two32
  {
    (a + b) % Two32
  }

  /** Unsigned 32-bit subtraction: the difference, wrapped once below zero. */
  function Sub32(a: u32, b: u32): (r: u32)
    ensures a >= b ==> r == a - b
    ensures a < b ==> r == a - b + Two32
  {
    (a - b) % Two32
  }

  /** Unsigned 32-bit multiplication: the product modulo 2^32. */
  function Mul32(a: u32, b: u32): (r: u32)
    ensures a * b < Two32 ==> r == a * b
    ensures r <= a * b && (a * b - r) % Two32 == 0
  {
    (a * b) % Two32
  }

  /** The four bytes `(uint8_t)(v >> 24)`, `(uint8_t)(v >> 16)`,
      `(uint8_t)(v >> 8)`, `(uint8_t)v`: most significant byte first. */
  function BigEndian(v: u32): (b: seq<byte>)
    ensures |b| == 4
    ensures FromBigEndian(b) == v
  {
    var b := [v / 0x100_0000 % 0x100, v / 0x1_0000 % 0x100, v / 0x100 % 0x100, v % 0x100];
    DivModSplit(v);
    b
  }

  /** `(b0 << 24) + (b1 << 16) + (b2 << 8) + b3` for four unsigned bytes. */
  function FromBigEndian(b: seq<byte>): (v: u32)
    requires |b| == 4
    ensures v / 0x100_0000 == b[0]
    ensures v % 0x100 == b[3]
  {
    b[0] as int * 0x100_0000 + b[1] as int * 0x1_0000 + b[2] as int * 0x100 + b[3]
  }

  /** Decoding four bytes and encoding the result gives the same four bytes. */
  lemma {:induction false} BigEndianRoundTrip(b: seq<byte>)
    requires |b| == 4
    ensures BigEndian(FromBigEndian(b)) == b
  {
    var v := FromBigEndian(b);
    var hi: int := b[0] as int * 0x100 + b[1];
    var mid: int := hi * 0x100 + b[2];
    assert v == mid * 0x100 + b[3];
    DivMod256(mid, b[3]);
    DivMod256(hi, b[2]);
    DivMod256(b[0], b[1]);
    DivDiv256(v);
    DivDiv256(v / 0x100);
    DivDiv256(v / 0x1_0000);
  }

  /** Encoding is injective: different words never share a byte image. */
  lemma BigEndianInjective(v: u32, w: u32)
    requires BigEndian(v) == BigEndian(w)
    ensures v == w
  {
  }

  /** Splitting into bytes loses nothing: the word is the weighted sum of
      its four bytes. */
  lemma {:induction false} DivModSplit(v: u32)
    ensures v == (v / 0x100_0000 % 0x100) * 0x100_0000 + (v / 0x1_0000 % 0x100) * 0x1_0000
                 + (v / 0x100 % 0x100) * 0x100 + v % 0x100
  {
    var q1 := v / 0x100;
    var q2 := q1 / 0x100;
    var q3 := q2 / 0x100;
    assert v == q1 * 0x100 + v % 0x100;
    assert q1 == q2 * 0x100 + q1 % 0x100;
    assert q2 == q3 * 0x100 + q2 % 0x100;
    DivDiv256(v);
    DivDiv256(q1);
    assert q3 < 0x100;
    assert q3 % 0x100 == q3;
  }

  lemma DivDiv256(x: int)
    requires x >= 0
    ensures x / 0x100 / 0x100 == x / 0x1_0000
    ensures x / 0x1_0000 / 0x100 == x / 0x100_0000
  {
  }

  lemma DivMod256(q: int, r: int)
    requires q >= 0 && 0 <= r < 0x100
    ensures (q * 0x100 + r) / 0x100 == q
    ensures (q * 0x100 + r) % 0x100 == r
  {
  }
}
