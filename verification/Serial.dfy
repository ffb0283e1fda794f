/** 32-bit sequence numbers and their serial comparisons, related to unbounded
    stream positions. */
module Serial {

  const MOD: int := 0x1_0000_0000
  const HALF: int := 0x8000_0000

  /** No window, on either side of a connection, exceeds 2^30 bytes. */
  const MAX_SPAN: int := 0x4000_0000

  type u8 = x: int | 0 <= x < 0x100
  type u16 = x: int | 0 <= x < 0x1_0000
  type u32 = x: int | 0 <= x < MOD
  type u64 = x: int | 0 <= x < 0x1_0000_0000_0000_0000

  const U32_MAX: u32 := 0xFFFF_FFFF
  const U64_MAX: u64 := 0xFFFF_FFFF_FFFF_FFFF

  function Min(a: int, b: int): int { if a < b then a else b }

  function Max(a: int, b: int): int { if a < b then b else a }

  /** The sequence number of stream position `p`. */
  function Wire(p: int): u32 {
    p % MOD
  }

  /** `a.wrapping_sub(b)`. */
  function WSub(a: u32, b: u32): u32 {
    (a - b) % MOD
  }

  /** `a.wrapping_add(n)`. */
  function WAdd(a: u32, n: int): u32 {
    (a + n) % MOD
  }

  /** `(a.wrapping_sub(b) as i32) < 0`. */
  predicate SeqLt(a: u32, b: u32) {
    WSub(a, b) >= HALF
  }

  /** `(a.wrapping_sub(b) as i32) <= 0`. */
  predicate SeqLe(a: u32, b: u32) {
    a == b || SeqLt(a, b)
  }

  /** `(a.wrapping_sub(b) as i32) > 0`. */
  predicate SeqGt(a: u32, b: u32) {
    0 < WSub(a, b) < HALF
  }

  /** `(a.wrapping_sub(b) as i32) >= 0`. */
  predicate SeqGe(a: u32, b: u32) {
    WSub(a, b) < HALF
  }

  function SatAdd(a: u32, n: u32): u32 {
    if a + n < MOD then a + n else U32_MAX
  }

  function SatSub(a: u32, n: u32): u32 {
    if n <= a then a - n else 0
  }

  /** Serial comparison is comparison of positions less than 2^31 apart. */
  lemma SerialOrder(p: int, q: int)
    requires -HALF < p - q < HALF
    ensures SeqLt(Wire(p), Wire(q)) <==> p < q
    ensures SeqLe(Wire(p), Wire(q)) <==> p <= q
    ensures SeqGt(Wire(p), Wire(q)) <==> p > q
    ensures SeqGe(Wire(p), Wire(q)) <==> p >= q
  {
    assert WSub(Wire(p), Wire(q)) == (p - q) % MOD;
  }

  /** Distance between positions less than 2^32 apart. */
  lemma SerialDistance(p: int, q: int)
    requires 0 <= p - q < MOD
    ensures WSub(Wire(p), Wire(q)) == p - q
  {
  }

  lemma WireAdd(p: int, n: int)
    ensures WAdd(Wire(p), n) == Wire(p + n)
  {
  }
}
