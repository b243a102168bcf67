/** Byte swapping, and a port on its way through a signed short. */
module ByteOrder {

  type U16 = n: int | 0 <= n < 0x1_0000

  lemma Quotient(d: int, k: int)
    requires d > 0
    ensures k >= 1 ==> d * k >= d
    ensures k <= -1 ==> d * k <= -d
  {
  }

  lemma Remainder(d: int, q: int, r: int)
    requires 0 <= r < d
    ensures (d * q + r) / d == q && (d * q + r) % d == r
  {
    assert (d * q + r) - d * ((d * q + r) / d) == (d * q + r) % d;
    Quotient(d, q - (d * q + r) / d);
  }

  /** The shifts are computed as ints and the result is truncated to 16 bits. The two parts share no
      bit, so the disjunction is a sum. */
  function Bswap16(x: U16): (r: U16)
    ensures r / 0x100 == x % 0x100 && r % 0x100 == x / 0x100
  {
    var high, low := x / 0x100, x % 0x100;
    assert x * 0x100 + high == 0x1_0000 * high + (0x100 * low + high);
    Remainder(0x1_0000, high, 0x100 * low + high);
    Remainder(0x100, low, high);
    (x * 0x100 + x / 0x100) % 0x1_0000
  }

  function Bswap32(x: bv32): bv32 {
    (x >> 24) | ((x >> 8) & 0xff00) | ((x << 8) & 0xff_0000) | (x << 24)
  }

  function Low(x: bv64): bv32 {
    (x & 0xffff_ffff) as bv32
  }

  function High(x: bv64): bv32 {
    (x >> 32) as bv32
  }

  function Pair(high: bv32, low: bv32): bv64 {
    ((high as bv64) << 32) | (low as bv64)
  }

  /** The 64-bit swap is made of two 32-bit ones; the argument of the first is truncated. */
  function Bswap64(x: bv64): bv64 {
    Pair(Bswap32(Low(x)), Bswap32(High(x)))
  }

  /** The four bytes come out in reverse order, and twice is not at all. */
  lemma Bswap32Reverses(x: bv32)
    ensures var y := Bswap32(x);
      && y & 0xff == x >> 24 && (y >> 8) & 0xff == (x >> 16) & 0xff
      && (y >> 16) & 0xff == (x >> 8) & 0xff && y >> 24 == x & 0xff
    ensures Bswap32(Bswap32(x)) == x
  {
  }

  lemma Halves(h: bv32, l: bv32)
    ensures High(Pair(h, l)) == h && Low(Pair(h, l)) == l
  {
  }

  lemma PairOfHalves(x: bv64)
    ensures Pair(High(x), Low(x)) == x
  {
  }

  /** The halves change places, each reversed, and twice is not at all. */
  lemma Bswap64Reverses(x: bv64)
    ensures High(Bswap64(x)) == Bswap32(Low(x)) && Low(Bswap64(x)) == Bswap32(High(x))
    ensures Bswap64(Bswap64(x)) == x
  {
    Halves(Bswap32(Low(x)), Bswap32(High(x)));
    Bswap32Reverses(Low(x));
    Bswap32Reverses(High(x));
    PairOfHalves(x);
  }

  /** htons, and just so ntohs: a swap on little-endian machines only. */
  function Htons(n: U16, littleEndian: bool): U16 {
    if littleEndian then Bswap16(n) else n
  }

  /** The conversion of an int to uint16_t. */
  function ToU16(n: int): U16 {
    n % 0x1_0000
  }

  /** The conversion of a uint16_t to (signed) short. */
  function ToShort(n: U16): (s: int)
    ensures -0x8000 <= s < 0x8000
  {
    if n < 0x8000 then n else n - 0x1_0000
  }

  lemma ShortRoundTrip(n: U16)
    ensures ToU16(ToShort(n)) == n
  {
  }

  lemma SwapTwice(m: U16)
    ensures Bswap16(Bswap16(m)) == m && (Bswap16(m) == 0 <==> m == 0)
  {
    var r := Bswap16(m);
    var s := Bswap16(r);
    assert s == s / 0x100 * 0x100 + s % 0x100 && m == m / 0x100 * 0x100 + m % 0x100;
    assert r == r / 0x100 * 0x100 + r % 0x100;
  }

  /** A port comes back from the short it was stored in, modulo 2^16, on either endianness; and it
      is stored as 0 only if it is 0 modulo 2^16. */
  lemma PortRoundTrip(port: int, littleEndian: bool)
    ensures var stored := ToShort(Htons(ToU16(port), littleEndian));
      && Htons(ToU16(stored), littleEndian) == port % 0x1_0000
      && (stored == 0 <==> port % 0x1_0000 == 0)
  {
    var m := ToU16(port);
    ShortRoundTrip(Htons(m, littleEndian));
    SwapTwice(m);
  }

  /** The two bytes of a short in memory, lower address first. */
  function Memory(n: U16, littleEndian: bool): seq<int> {
    if littleEndian then [n % 0x100, n / 0x100] else [n / 0x100, n % 0x100]
  }

  lemma BytesOfPort(port: int)
    ensures port % 0x1_0000 / 0x100 == port / 0x100 % 0x100 && port % 0x1_0000 % 0x100 == port % 0x100
  {
    var q, m := port / 0x1_0000, port % 0x1_0000;
    var h, l := m / 0x100, m % 0x100;
    assert port == 0x100 * (0x100 * q + h) + l;
    Remainder(0x100, 0x100 * q + h, l);
    Remainder(0x100, q, h);
  }

  /** A stored port lies in memory in network order, high byte first, on either endianness. */
  lemma NetworkOrder(port: int, littleEndian: bool)
    ensures var stored := ToShort(Htons(ToU16(port), littleEndian));
      Memory(ToU16(stored), littleEndian) == [port / 0x100 % 0x100, port % 0x100]
  {
    var m := ToU16(port);
    ShortRoundTrip(Htons(m, littleEndian));
    BytesOfPort(port);
  }
}
