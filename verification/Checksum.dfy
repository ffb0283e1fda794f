/** The Internet checksum: the word-at-a-time computation against its definition. */
module Checksum {
  import opened Serial

  const ONES16: u16 := 0xFFFF

  // ---- The definition (RFC 1071) -------------------------------------------

  /** Sum of `data` as big-endian 16-bit words, an odd byte padded with zero. */
  function WordSum(data: seq<u8>): nat {
    if data == [] then 0
    else if |data| == 1 then 256 * data[0]
    else 256 * data[0] + data[1] + WordSum(data[2..])
  }

  /** A ones' complement sum in 16 bits: zero only for an all-zero sum. */
  function Canon(x: nat): u16 {
    if x == 0 then 0 else (x - 1) % 65535 + 1
  }

  /** The complemented ones' complement sum of `data` and `seed`. */
  function Sum16(data: seq<u8>, seed: nat): u16 {
    ONES16 - Canon(WordSum(data) + seed)
  }

  // ---- Arithmetic modulo 2^16 - 1 ------------------------------------------

  predicate Cong(a: int, b: int) {
    (a - b) % 65535 == 0
  }

  lemma CanonIff(a: nat, b: nat)
    ensures Canon(a) == Canon(b) <==> Cong(a, b) && (a == 0 <==> b == 0)
  {
  }

  lemma CanonCong(a: nat)
    ensures Cong(Canon(a), a) && (Canon(a) == 0 <==> a == 0)
  {
  }

  lemma CongAdd(a: int, b: int, c: int, d: int)
    requires Cong(a, b) && Cong(c, d)
    ensures Cong(a + c, b + d)
  {
  }

  /** Folding a part first changes nothing. */
  lemma CanonPart(a: nat, b: nat)
    ensures Canon(Canon(a) + b) == Canon(a + b)
  {
    CanonCong(a);
    CanonIff(Canon(a) + b, a + b);
  }

  function SwapBytes(x: u16): u16 {
    x % 256 * 256 + x / 256
  }

  lemma SwapCong(c: u16)
    ensures Cong(SwapBytes(c), 256 * c) && (SwapBytes(c) == 0 <==> c == 0)
  {
    var h: int, l: int := c / 256, c % 256;
    assert SwapBytes(c) - 256 * c == -65535 * h;
  }

  lemma CongScale(a: int, b: int)
    requires Cong(a, b)
    ensures Cong(256 * a, 256 * b)
  {
    var k := (a - b) / 65535;
    assert 256 * a - 256 * b == 65535 * (256 * k);
  }

  lemma CongBy(a: int, b: int, k: int)
    requires a - b == 65535 * k
    ensures Cong(a, b)
  {
  }

  lemma CongTrans(a: int, b: int, c: int)
    requires Cong(a, b) && Cong(b, c)
    ensures Cong(a, c)
  {
  }

  /** Swapping bytes multiplies by 256. */
  lemma SwapIsTimes256(x: nat)
    ensures SwapBytes(Canon(x)) == Canon(256 * x)
  {
    hide Cong;
    var c: int := Canon(x);
    CanonCong(x);
    SwapCong(c);
    CongScale(c, x);
    CongTrans(SwapBytes(c), 256 * c, 256 * x);
    CanonIff(SwapBytes(c), 256 * x);
    Canon16(SwapBytes(c));
  }

  lemma Canon16(x: u16)
    ensures Canon(x) == x
  {
  }

  // ---- The computation -----------------------------------------------------

  /** `fold`: end-around carries until 16 bits are left. */
  method Fold(acc: u64) returns (r: u16)
    ensures r == Canon(acc)
  {
    var a := acc;
    while a > 0xFFFF
      invariant Canon(a) == Canon(acc)
      decreases a
    {
      CanonIff(a % 65536 + a / 65536, a);
      a := a % 65536 + a / 65536;
    }
    r := a;
  }

  /** Four bytes as a native-endian word. */
  function Native(b: seq<u8>, little: bool): u32
    requires |b| == 4
  {
    var b0: int, b1: int, b2: int, b3: int := b[0], b[1], b[2], b[3];
    if little then b0 + 0x100 * b1 + 0x1_0000 * b2 + 0x100_0000 * b3
    else 0x100_0000 * b0 + 0x1_0000 * b1 + 0x100 * b2 + b3
  }

  /** `data` padded with zeros to a whole number of four-byte words, summed. */
  function NativeSum(data: seq<u8>, little: bool): nat {
    if |data| < 4 then Native(data + Zeros(4 - |data|), little)
    else Native(data[..4], little) + NativeSum(data[4..], little)
  }

  function Zeros(n: nat): (z: seq<u8>)
    ensures |z| == n
  {
    seq(n, _ => 0)
  }

  lemma WordArithmetic(b0: int, b1: int, b2: int, b3: int)
    requires 0 <= b0 && 0 <= b1 && 0 <= b2 && 0 <= b3
    ensures var s := 256 * b0 + b1 + 256 * b2 + b3;
            var le := b0 + 0x100 * b1 + 0x1_0000 * b2 + 0x100_0000 * b3;
            var be := 0x100_0000 * b0 + 0x1_0000 * b1 + 0x100 * b2 + b3;
            Cong(256 * le, s) && Cong(be, s) && (le == 0 <==> s == 0) && (be == 0 <==> s == 0)
  {
    var s := 256 * b0 + b1 + 256 * b2 + b3;
    var le := b0 + 0x100 * b1 + 0x1_0000 * b2 + 0x100_0000 * b3;
    var be := 0x100_0000 * b0 + 0x1_0000 * b1 + 0x100 * b2 + b3;
    hide Cong;
    CongBy(256 * le, s, b1 + 256 * b2 + 65537 * b3);
    CongBy(be, s, 256 * b0 + b1);
  }

  /** One native word against its two 16-bit words. */
  lemma NativeWord(b: seq<u8>, little: bool)
    requires |b| == 4
    ensures var m := if little then 256 else 1;
            && Cong(m * Native(b, little), WordSum(b))
            && (Native(b, little) == 0 <==> WordSum(b) == 0)
  {
    hide WordSum, Cong;
    FourSum(b);
    WordArithmetic(b[0], b[1], b[2], b[3]);
  }

  lemma FourSum(b: seq<u8>)
    requires |b| == 4
    ensures var b0: int, b1: int, b2: int, b3: int := b[0], b[1], b[2], b[3];
            WordSum(b) == 256 * b0 + b1 + 256 * b2 + b3
  {
    assert WordSum(b[2..][2..]) == 0;
  }

  lemma {:induction false} WordSumAppend(a: seq<u8>, b: seq<u8>)
    requires |a| % 2 == 0
    ensures WordSum(a + b) == WordSum(a) + WordSum(b)
  {
    if a == [] {
      assert a + b == b;
    } else {
      assert (a + b)[2..] == a[2..] + b;
      WordSumAppend(a[2..], b);
    }
  }

  lemma PaddingSum(data: seq<u8>)
    requires |data| < 4
    ensures WordSum(data + Zeros(4 - |data|)) == WordSum(data)
  {
    var p := data + Zeros(4 - |data|);
    assert WordSum(p) == 256 * p[0] + p[1] + WordSum(p[2..]);
    assert WordSum(p[2..]) == 256 * p[2] + p[3] + WordSum(p[2..][2..]);
    if |data| == 3 {
      assert WordSum(data) == 256 * data[0] + data[1] + WordSum(data[2..]);
      assert data[2..] == [data[2]];
    } else if |data| == 2 {
      assert data[2..] == [];
    }
  }

  lemma {:induction false} NativeSumIsWordSum(data: seq<u8>, little: bool)
    ensures var m := if little then 256 else 1;
            && Cong(m * NativeSum(data, little), WordSum(data))
            && (NativeSum(data, little) == 0 <==> WordSum(data) == 0)
    decreases |data|
  {
    var m := if little then 256 else 1;
    if |data| < 4 {
      NativeWord(data + Zeros(4 - |data|), little);
      PaddingSum(data);
    } else {
      NativeWord(data[..4], little);
      NativeSumIsWordSum(data[4..], little);
      assert data == data[..4] + data[4..];
      WordSumAppend(data[..4], data[4..]);
      CongAdd(m * Native(data[..4], little), WordSum(data[..4]),
              m * NativeSum(data[4..], little), WordSum(data[4..]));
    }
  }

  /** `ones_sum`, on a host of either byte order. */
  method OnesSum(data: seq<u8>, little: bool) returns (r: u16)
    requires |data| <= 0xFFFF_FFFF
    ensures r == Canon(WordSum(data))
  {
    hide WordSum, NativeSum, SwapBytes;
    var acc := SumWords(data, little);
    NativeSumIsWordSum(data, little);
    var sum := Fold(acc);
    if little {
      SwapIsTimes256(acc);
      CanonIff(256 * (acc as int), WordSum(data));
      r := SwapBytes(sum);
    } else {
      CanonIff(acc, WordSum(data));
      r := sum;
    }
  }

  /** Whole words, then the tail padded with zeros; the accumulator never overflows. */
  method SumWords(data: seq<u8>, little: bool) returns (acc: u64)
    requires |data| <= 0xFFFF_FFFF
    ensures acc == NativeSum(data, little)
  {
    hide Native;
    acc := 0;
    var i := 0;
    assert data[0..] == data;
    while |data| - i >= 4
      invariant 0 <= i <= |data| && i % 4 == 0
      invariant acc + NativeSum(data[i..], little) == NativeSum(data, little)
      invariant acc <= 0xFFFF_FFFF * (i / 4)
    {
      assert data[i..][..4] == data[i..i + 4] && data[i..][4..] == data[i + 4..];
      acc := acc + Native(data[i..i + 4], little);
      i := i + 4;
    }
    acc := acc + Native(data[i..] + Zeros(4 - |data[i..]|), little);
  }

  /** `checksum`: the same on either byte order, and as RFC 1071 defines it. */
  method Checksum(data: seq<u8>, seed: u32, little: bool) returns (c: u16)
    requires |data| <= 0xFFFF_FFFF
    ensures c == Sum16(data, seed)
  {
    var s := OnesSum(data, little);
    var f := Fold(s + seed);
    CanonPart(WordSum(data), seed);
    c := ONES16 - f;
  }

  // ---- Verifying, completing, detecting ------------------------------------

  /** `data` with the 16-bit `v` at `off`, high byte first. */
  function Put16(data: seq<u8>, off: nat, v: u16): (r: seq<u8>)
    requires off + 2 <= |data|
    ensures |r| == |data|
  {
    data[off := v / 256][off + 1 := v % 256]
  }

  /** Changing one byte moves the sum by its place value. */
  lemma {:induction false} WordSumUpdate(data: seq<u8>, j: nat, x: u8)
    requires j < |data|
    ensures WordSum(data[j := x]) == WordSum(data) + (x - data[j]) * (if j % 2 == 0 then 256 else 1)
  {
    var d := data[j := x];
    if j >= 2 {
      assert d[2..] == data[2..][j - 2 := x];
      WordSumUpdate(data[2..], j - 2, x);
    } else if |data| >= 2 {
      assert d[2..] == data[2..];
    }
  }

  lemma WordSumPut(data: seq<u8>, off: nat, v: u16)
    requires off % 2 == 0 && off + 2 <= |data| && data[off] == 0 && data[off + 1] == 0
    ensures WordSum(Put16(data, off, v)) == WordSum(data) + v
  {
    hide WordSum;
    var hi, lo := v / 256, v % 256;
    assert v == 256 * hi + lo;
    var once := data[off := hi];
    WordSumUpdate(data, off, hi);
    WordSumUpdate(once, off + 1, lo);
  }

  /** A block whose checksum field was computed over a zero field sums to zero. */
  lemma StoredVerifies(data: seq<u8>, off: nat, seed: nat)
    requires off % 2 == 0 && off + 2 <= |data| && data[off] == 0 && data[off + 1] == 0
    ensures Sum16(Put16(data, off, Sum16(data, seed)), seed) == 0
  {
    var t := WordSum(data) + seed;
    WordSumPut(data, off, Sum16(data, seed));
    CanonCong(t);
    CanonIff(t + ONES16 - Canon(t), ONES16);
  }

  /** Completing a partial checksum, whose field holds the folded seed, gives the
      full one. */
  lemma PartialCompletes(data: seq<u8>, off: nat, seed: nat)
    requires off % 2 == 0 && off + 2 <= |data| && data[off] == 0 && data[off + 1] == 0
    ensures Sum16(Put16(data, off, ONES16 - Sum16([], seed)), 0) == Sum16(data, seed)
  {
    WordSumPut(data, off, Canon(seed));
    CanonPart(seed, WordSum(data));
  }

  /** `x` and `y` differ by a power of two, as when one bit is flipped. */
  predicate Apart(x: u8, y: u8) {
    var d := if x < y then y - x else x - y;
    d == 1 || d == 2 || d == 4 || d == 8 || d == 16 || d == 32 || d == 64 || d == 128
  }

  /** A verified block fails verification after any such change of one byte. */
  lemma FlipDetected(data: seq<u8>, j: nat, x: u8, seed: nat)
    requires j < |data| && Apart(data[j], x) && Sum16(data, seed) == 0
    ensures Sum16(data[j := x], seed) != 0
  {
    WordSumUpdate(data, j, x);
    ZeroIff(data, seed);
    ZeroIff(data[j := x], seed);
  }

  lemma ZeroIff(data: seq<u8>, seed: nat)
    ensures Sum16(data, seed) == 0 <==> WordSum(data) + seed > 0 && Cong(WordSum(data) + seed, 0)
  {
  }
}
