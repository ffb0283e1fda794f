/** IPv4 + TCP datagrams: building and parsing them. */
module Wire {
  import opened Serial
  import opened Checksum
  import opened TcpOptions

  const IPPROTO_TCP: u8 := 6

  /** The fields a datagram carries. */
  datatype Segment = Segment(src: seq<u8>, dst: seq<u8>, srcPort: u16, dstPort: u16,
                             seqNo: u32, ackNo: u32, flags: u8, window: u16,
                             options: Opts, payload: seq<u8>, ecn: u8)

  /** Four-byte addresses, a two-bit ECN codepoint, options the codec can carry. */
  predicate Sane(x: Segment) {
    |x.src| == 4 && |x.dst| == 4 && x.ecn < 4 && Clean(x.options)
  }

  function TotalLen(x: Segment): nat {
    40 + EncodedLen(x.options) + |x.payload|
  }

  /** It fits the 40-byte option limit and the 16-bit length field. */
  predicate Fits(x: Segment) {
    EncodedLen(x.options) <= 40 && TotalLen(x) <= 0xFFFF
  }

  // ---- Building ------------------------------------------------------------

  /** Sum of the pseudo-header's 16-bit words. */
  function PseudoSum(src: seq<u8>, dst: seq<u8>, tcpLen: nat): nat
    requires |src| == 4 && |dst| == 4
  {
    var s0: int, s2: int, d0: int, d2: int := src[0], src[2], dst[0], dst[2];
    (256 * s0 + src[1]) + (256 * s2 + src[3]) + (256 * d0 + dst[1]) + (256 * d2 + dst[3])
    + IPPROTO_TCP + tcpLen % 0x1_0000
  }

  /** The IPv4 header with a zero checksum field. */
  function IpBase(x: Segment, id: u16): (r: seq<u8>)
    requires Sane(x) && Fits(x)
    ensures |r| == 20
  {
    var n := TotalLen(x);
    [0x45, x.ecn, n / 256, n % 256, id / 256, id % 256, 0x40, 0, 64, IPPROTO_TCP, 0, 0,
     x.src[0], x.src[1], x.src[2], x.src[3], x.dst[0], x.dst[1], x.dst[2], x.dst[3]]
  }

  /** The fixed TCP header with a zero checksum field. */
  function TcpHead(x: Segment): (r: seq<u8>)
    requires Fits(x)
    ensures |r| == 20
  {
    BE16(x.srcPort) + BE16(x.dstPort) + BE32(x.seqNo) + BE32(x.ackNo)
    + [(20 + EncodedLen(x.options)) / 4 * 16, x.flags] + BE16(x.window) + [0, 0, 0, 0]
  }

  function TcpBase(x: Segment): (r: seq<u8>)
    requires Sane(x) && Fits(x)
    ensures |r| == TotalLen(x) - 20
  {
    TcpHead(x) + Encode(x.options) + x.payload
  }

  function IpHeader(x: Segment, id: u16): (r: seq<u8>)
    requires Sane(x) && Fits(x)
    ensures |r| == 20
  {
    Put16(IpBase(x, id), 10, Sum16(IpBase(x, id), 0))
  }

  function Pseudo(x: Segment): nat
    requires Sane(x) && Fits(x)
  {
    PseudoSum(x.src, x.dst, TotalLen(x) - 20)
  }

  /** The TCP segment; without `full` its checksum field holds only the folded
      pseudo-header sum, for the host to complete. */
  function TcpSegment(x: Segment, full: bool): (r: seq<u8>)
    requires Sane(x) && Fits(x)
    ensures |r| == TotalLen(x) - 20
  {
    Put16(TcpBase(x), 16,
          if full then Sum16(TcpBase(x), Pseudo(x)) else ONES16 - Sum16([], Pseudo(x)))
  }

  function Datagram(x: Segment, id: u16, full: bool): (r: seq<u8>)
    requires Sane(x) && Fits(x)
    ensures |r| == TotalLen(x)
  {
    IpHeader(x, id) + TcpSegment(x, full)
  }

  // ---- Parsing -------------------------------------------------------------

  /** `parse_opts`: every check in the order it is made. */
  function ParsePacket(p: seq<u8>, verify: bool): Result<Segment> {
    if |p| < 20 then Err(MalformedPacket)
    else if p[0] / 16 != 4 then Err(MalformedPacket)
    else
      var ihl := p[0] % 16 * 4;
      if ihl < 20 then Err(MalformedPacket)
      else
        var total := Get16(p, 2);
        if total > |p| || total < ihl + 20 then Err(MalformedPacket)
        else if Get16(p, 6) / 0x2000 % 2 != 0 || Get16(p, 6) % 0x2000 != 0 then Err(MalformedPacket)
        else if p[9] != IPPROTO_TCP then Err(NotForUs)
        else if Sum16(p[..ihl], 0) != 0 then Err(MalformedPacket)
        else ParseTcp(p[ihl..total], p[12..16], p[16..20], p[1] % 4, verify)
  }

  function ParseTcp(t: seq<u8>, src: seq<u8>, dst: seq<u8>, ecn: u8, verify: bool): Result<Segment>
    requires |t| >= 20 && |src| == 4 && |dst| == 4
  {
    var off := t[12] / 16 * 4;
    if off < 20 || off > |t| then Err(MalformedPacket)
    else if verify && Sum16(t, PseudoSum(src, dst, |t|)) != 0 then Err(MalformedPacket)
    else
      match Parse(t[20..off])
      case Err(e) => Err(e)
      case Ok(o) =>
        Ok(Segment(src, dst, Get16(t, 0), Get16(t, 2), Get32(t, 4), Get32(t, 8),
                   t[13], Get16(t, 14), o, t[off..], ecn))
  }

  // ---- Emitted datagrams verify --------------------------------------------

  lemma IpVerifies(x: Segment, id: u16)
    requires Sane(x) && Fits(x)
    ensures Sum16(IpHeader(x, id), 0) == 0
  {
    StoredVerifies(IpBase(x, id), 10, 0);
  }

  lemma TcpVerifies(x: Segment)
    requires Sane(x) && Fits(x)
    ensures Sum16(TcpSegment(x, true), Pseudo(x)) == 0
  {
    ChecksumField(x);
    StoredVerifies(TcpBase(x), 16, Pseudo(x));
  }

  lemma ChecksumField(x: Segment)
    requires Sane(x) && Fits(x)
    ensures TcpBase(x)[16] == 0 && TcpBase(x)[17] == 0
  {
    assert TcpBase(x)[16] == TcpHead(x)[16] && TcpBase(x)[17] == TcpHead(x)[17];
  }

  /** Completing a partial checksum gives the full datagram. */
  lemma PartialIsCompleted(x: Segment)
    requires Sane(x) && Fits(x)
    ensures Sum16(TcpSegment(x, false), 0) == Sum16(TcpBase(x), Pseudo(x))
    ensures Put16(TcpSegment(x, false), 16, Sum16(TcpSegment(x, false), 0)) == TcpSegment(x, true)
  {
    ChecksumField(x);
    PartialCompletes(TcpBase(x), 16, Pseudo(x));
  }

  // ---- Parsing undoes building ---------------------------------------------

  lemma TcpFields(x: Segment, full: bool)
    requires Sane(x) && Fits(x)
    ensures var t := TcpSegment(x, full);
            && t[12] == (20 + EncodedLen(x.options)) / 4 * 16 && t[13] == x.flags
            && Get16(t, 0) == x.srcPort && Get16(t, 2) == x.dstPort
            && Get32(t, 4) == x.seqNo && Get32(t, 8) == x.ackNo && Get16(t, 14) == x.window
  {
    hide BE16, BE32, Get16, Get32, Encode;
    var t, h := TcpSegment(x, full), TcpHead(x);
    assert forall k :: 0 <= k < 16 ==> t[k] == TcpBase(x)[k] == h[k];
    assert t[0..2] == h[0..2] == BE16(x.srcPort);
    assert t[2..4] == h[2..4] == BE16(x.dstPort);
    assert t[4..8] == h[4..8] == BE32(x.seqNo);
    assert t[8..12] == h[8..12] == BE32(x.ackNo);
    assert t[14..16] == h[14..16] == BE16(x.window);
    Read16(t, 0, x.srcPort);
    Read16(t, 2, x.dstPort);
    Read32(t, 4, x.seqNo);
    Read32(t, 8, x.ackNo);
    Read16(t, 14, x.window);
  }

  lemma PutSuffix(data: seq<u8>, off: nat, v: u16, n: nat)
    requires off + 2 <= n <= |data|
    ensures Put16(data, off, v)[n..] == data[n..]
  {
  }

  lemma ThreeParts(a: seq<u8>, b: seq<u8>, c: seq<u8>)
    ensures (a + b + c)[|a|..] == b + c
    ensures (b + c)[..|b|] == b && (b + c)[|b|..] == c
  {
  }

  lemma TcpParts(x: Segment, full: bool)
    requires Sane(x) && Fits(x)
    ensures var t, n := TcpSegment(x, full), 20 + EncodedLen(x.options);
            t[20..n] == Encode(x.options) && t[n..] == x.payload
  {
    hide Encode, TcpHead, Put16, Sum16, EncodedLen;
    var t, n := TcpSegment(x, full), 20 + EncodedLen(x.options);
    PutSuffix(TcpBase(x), 16, if full then Sum16(TcpBase(x), Pseudo(x)) else ONES16 - Sum16([], Pseudo(x)), 20);
    ThreeParts(TcpHead(x), Encode(x.options), x.payload);
    assert t[20..n] == t[20..][..n - 20] && t[n..] == t[20..][n - 20..];
  }

  lemma ParseTcpRoundTrip(x: Segment, full: bool, verify: bool)
    requires Sane(x) && Fits(x) && (verify ==> full)
    ensures ParseTcp(TcpSegment(x, full), x.src, x.dst, x.ecn, verify) == Ok(x)
  {
    hide Get16, Get32, Encode, Sum16, TcpSegment;
    TcpFields(x, full);
    TcpParts(x, full);
    RoundTrip(x.options);
    if verify {
      TcpVerifies(x);
    }
  }

  lemma IpFields(x: Segment, id: u16)
    requires Sane(x) && Fits(x)
    ensures var h := IpHeader(x, id);
            && h[0] == 0x45 && h[1] == x.ecn && h[9] == IPPROTO_TCP
            && Get16(h, 2) == TotalLen(x) && Get16(h, 6) == 0x4000
            && h[12..16] == x.src && h[16..20] == x.dst
  {
    hide Sum16, EncodedLen;
    var h, b := IpHeader(x, id), IpBase(x, id);
    assert forall k :: 0 <= k < 20 && k != 10 && k != 11 ==> h[k] == b[k];
  }

  lemma DatagramParts(x: Segment, id: u16, full: bool)
    requires Sane(x) && Fits(x)
    ensures var d := Datagram(x, id, full);
            && d[..20] == IpHeader(x, id) && d[20..|d|] == TcpSegment(x, full)
            && (forall k :: 0 <= k < 20 ==> d[k] == IpHeader(x, id)[k])
            && Get16(d, 2) == Get16(IpHeader(x, id), 2) && Get16(d, 6) == Get16(IpHeader(x, id), 6)
            && d[12..16] == IpHeader(x, id)[12..16] && d[16..20] == IpHeader(x, id)[16..20]
  {
    hide IpHeader, TcpSegment;
  }

  /** Bytes after the stated total length are ignored. */
  lemma PaddingIgnored(d: seq<u8>, pad: seq<u8>, verify: bool)
    requires |d| >= 20 && Get16(d, 2) == |d|
    ensures ParsePacket(d + pad, verify) == ParsePacket(d, verify)
  {
    hide Sum16, ParseTcp;
    var p := d + pad;
    var ihl := p[0] % 16 * 4;
    assert Get16(p, 6) == Get16(d, 6);
    assert p[12..16] == d[12..16] && p[16..20] == d[16..20];
    if 20 <= ihl <= |d| {
      assert p[..ihl] == d[..ihl] && p[ihl..|d|] == d[ihl..|d|];
    }
  }

  /** Every datagram this stack can build parses back to the fields it was built
      from, whatever follows it in the buffer; a partial checksum does if the host
      vouches for it. */
  lemma DatagramRoundTrip(x: Segment, id: u16, full: bool, verify: bool, pad: seq<u8>)
    requires Sane(x) && Fits(x) && (verify ==> full)
    ensures ParsePacket(Datagram(x, id, full) + pad, verify) == Ok(x)
  {
    hide IpHeader, TcpSegment, ParseTcp, Sum16, Datagram;
    IpFields(x, id);
    IpVerifies(x, id);
    DatagramParts(x, id, full);
    ParseTcpRoundTrip(x, full, verify);
    PaddingIgnored(Datagram(x, id, full), pad, verify);
  }

  lemma ParsedTcpFits(t: seq<u8>, src: seq<u8>, dst: seq<u8>, ecn: u8, verify: bool)
    requires |t| >= 20 && |src| == 4 && |dst| == 4 && ecn < 4
    requires ParseTcp(t, src, dst, ecn, verify).Ok?
    ensures var x := ParseTcp(t, src, dst, ecn, verify).value;
            Sane(x) && EncodedLen(x.options) <= 40 && TotalLen(x) <= 20 + |t|
  {
    hide Sum16, ParseFrom, Get32, Get16;
    var off := t[12] / 16 * 4;
    ParsedFits(t[20..off], NONE);
  }

  lemma ParsedIsSendable(p: seq<u8>, verify: bool)
    requires ParsePacket(p, verify).Ok?
    ensures var x := ParsePacket(p, verify).value;
            Sane(x) && Fits(x) && TotalLen(x) <= |p|
  {
    hide Sum16, ParseTcp, TotalLen, EncodedLen, Sane;
    var ihl, total := p[0] % 16 * 4, Get16(p, 2);
    ParsedTcpFits(p[ihl..total], p[12..16], p[16..20], p[1] % 4, verify);
  }

  /** Whatever parses, however its options were laid out, can be sent again within
      the 40-byte option limit and parses to the same fields. */
  lemma ParsedRoundTrip(p: seq<u8>, verify: bool, id: u16)
    requires ParsePacket(p, verify).Ok?
    ensures var x := ParsePacket(p, verify).value;
            && Sane(x) && Fits(x) && TotalLen(x) <= |p|
            && ParsePacket(Datagram(x, id, true), true) == Ok(x)
  {
    hide ParsePacket, Datagram, Sane, Fits;
    ParsedIsSendable(p, verify);
    var x := ParsePacket(p, verify).value;
    DatagramRoundTrip(x, id, true, true, []);
    assert Datagram(x, id, true) + [] == Datagram(x, id, true);
  }

  // ---- Single-bit corruption -----------------------------------------------

  /** `x` with bit `b` inverted. */
  function FlipBit(x: u8, b: nat): u8
    requires b < 8
  {
    if b == 0 then (if x % 2 == 1 then x - 1 else x + 1)
    else if b == 1 then (if x / 2 % 2 == 1 then x - 2 else x + 2)
    else if b == 2 then (if x / 4 % 2 == 1 then x - 4 else x + 4)
    else if b == 3 then (if x / 8 % 2 == 1 then x - 8 else x + 8)
    else if b == 4 then (if x / 16 % 2 == 1 then x - 16 else x + 16)
    else if b == 5 then (if x / 32 % 2 == 1 then x - 32 else x + 32)
    else if b == 6 then (if x / 64 % 2 == 1 then x - 64 else x + 64)
    else (if x / 128 % 2 == 1 then x - 128 else x + 128)
  }

  lemma FlipIsApart(x: u8, b: nat)
    requires b < 8
    ensures Apart(x, FlipBit(x, b))
  {
  }

  /** What acceptance implies: both checksums hold, at the header length stated. */
  lemma AcceptedVerifies(p: seq<u8>)
    requires ParsePacket(p, true).Ok?
    ensures var ihl, total := p[0] % 16 * 4, Get16(p, 2);
            && p[0] / 16 == 4 && 20 <= ihl && ihl + 20 <= total <= |p|
            && Sum16(p[..ihl], 0) == 0
            && Sum16(p[ihl..total], PseudoSum(p[12..16], p[16..20], total - ihl)) == 0
  {
    hide Sum16, Parse, Get32;
  }

  predicate Rejected(p: seq<u8>) {
    ParsePacket(p, true).Err?
  }

  lemma FlipInTcp(x: Segment, id: u16, j: nat, y: u8)
    requires Sane(x) && Fits(x) && 20 <= j < TotalLen(x) && Apart(Datagram(x, id, true)[j], y)
    ensures Rejected(Datagram(x, id, true)[j := y])
  {
    hide IpHeader, TcpSegment, Sum16, ParsePacket, PseudoSum;
    var d, t := Datagram(x, id, true), TcpSegment(x, true);
    var p := d[j := y];
    IpFields(x, id);
    DatagramParts(x, id, true);
    if ParsePacket(p, true).Ok? {
      AcceptedVerifies(p);
      assert p[12..16] == d[12..16] && p[16..20] == d[16..20];
      assert p[20..|p|] == t[j - 20 := y];
      TcpVerifies(x);
      FlipDetected(t, j - 20, y, Pseudo(x));
      assert false;
    }
  }

  lemma FlipInIp(x: Segment, id: u16, j: nat, y: u8)
    requires Sane(x) && Fits(x) && 1 <= j < 20 && Apart(Datagram(x, id, true)[j], y)
    ensures Rejected(Datagram(x, id, true)[j := y])
  {
    hide IpHeader, TcpSegment, Sum16, ParsePacket, PseudoSum;
    var d, h := Datagram(x, id, true), IpHeader(x, id);
    var p := d[j := y];
    IpFields(x, id);
    DatagramParts(x, id, true);
    if ParsePacket(p, true).Ok? {
      AcceptedVerifies(p);
      assert p[..20] == h[j := y];
      IpVerifies(x, id);
      FlipDetected(h, j, y, 0);
      assert false;
    }
  }

  lemma SwallowedSums(h: seq<u8>, t: seq<u8>, y: u8, k: nat)
    requires |h| == 20 && h[0] == 0x45 && k % 2 == 0 && k <= |t|
    ensures var p := (h + t)[0 := y];
            && WordSum(p[..20 + k]) == WordSum(h) + 256 * (y as int - 0x45) + WordSum(t[..k])
            && p[20 + k..] == t[k..]
            && WordSum(t) == WordSum(t[..k]) + WordSum(t[k..])
  {
    hide WordSum;
    var p := (h + t)[0 := y];
    assert p == h[0 := y] + t;
    assert p[..20 + k] == h[0 := y] + t[..k];
    WordSumUpdate(h, 0, y);
    WordSumAppend(h[0 := y], t[..k]);
    assert t == t[..k] + t[k..];
    WordSumAppend(t[..k], t[k..]);
  }

  lemma CannotBeBoth(h: int, a: int, b: int, pseudo: int, up: int, k: int)
    requires Cong(h, 0) && Cong(a + b + pseudo, 0) && !Cong(up, k)
    ensures !(Cong(h + up + a, 0) && Cong(b + pseudo - k, 0))
  {
  }

  lemma PseudoShorter(src: seq<u8>, dst: seq<u8>, n: nat, k: nat)
    requires |src| == 4 && |dst| == 4 && k <= n < 0x1_0000
    ensures PseudoSum(src, dst, n - k) == PseudoSum(src, dst, n) - k
  {
  }

  /** A longer header would have to swallow `k` bytes of TCP that sum to two
      different values at once: one for the IP checksum, one for TCP's. */
  lemma LongerHeader(x: Segment, id: u16, y: u8, k: nat)
    requires Sane(x) && Fits(x) && k % 2 == 0 && 20 + k + 20 <= TotalLen(x)
    requires !Cong(256 * (y as int - 0x45), k)
    ensures var p := Datagram(x, id, true)[0 := y];
            !(Sum16(p[..20 + k], 0) == 0 &&
              Sum16(p[20 + k..|p|], PseudoSum(x.src, x.dst, TotalLen(x) - 20 - k)) == 0)
  {
    hide IpHeader, TcpSegment, Sum16, WordSum, PseudoSum, Cong;
    var h, t := IpHeader(x, id), TcpSegment(x, true);
    var p := Datagram(x, id, true)[0 := y];
    assert p[20 + k..|p|] == p[20 + k..];
    IpFields(x, id);
    IpVerifies(x, id);
    TcpVerifies(x);
    SwallowedSums(h, t, y, k);
    PseudoShorter(x.src, x.dst, TotalLen(x) - 20, k);
    ZeroIff(h, 0);
    ZeroIff(t, Pseudo(x));
    ZeroIff(p[..20 + k], 0);
    ZeroIff(p[20 + k..], PseudoSum(x.src, x.dst, TotalLen(x) - 20 - k));
    CannotBeBoth(WordSum(h), WordSum(t[..k]), WordSum(t[k..]), Pseudo(x), 256 * (y as int - 0x45), k);
  }

  lemma FlipInIhl(x: Segment, id: u16, b: nat)
    requires Sane(x) && Fits(x) && b < 4
    ensures Rejected(Datagram(x, id, true)[0 := FlipBit(0x45, b)])
  {
    hide IpHeader, TcpSegment, Sum16, ParsePacket, PseudoSum;
    var d := Datagram(x, id, true);
    var p := d[0 := FlipBit(0x45, b)];
    IpFields(x, id);
    DatagramParts(x, id, true);
    if ParsePacket(p, true).Ok? {
      AcceptedVerifies(p);
      assert p[12..16] == d[12..16] && p[16..20] == d[16..20];
      if b == 1 {
        LongerHeader(x, id, 0x47, 8);
      } else if b == 3 {
        LongerHeader(x, id, 0x4D, 32);
      }
      assert false;
    }
  }

  lemma FlipInVersion(x: Segment, id: u16, b: nat)
    requires Sane(x) && Fits(x) && 4 <= b < 8
    ensures Rejected(Datagram(x, id, true)[0 := FlipBit(0x45, b)])
  {
    hide IpHeader, TcpSegment, Sum16, ParseTcp, Datagram;
  }

  /** Inverting any one bit of an emitted datagram makes parsing reject it. */
  lemma AnyFlipRejected(x: Segment, id: u16, j: nat, b: nat)
    requires Sane(x) && Fits(x) && j < TotalLen(x) && b < 8
    ensures var d := Datagram(x, id, true); Rejected(d[j := FlipBit(d[j], b)])
  {
    hide IpHeader, TcpSegment, Datagram, Rejected, Apart, FlipBit;
    var d := Datagram(x, id, true);
    FlipIsApart(d[j], b);
    IpFields(x, id);
    DatagramParts(x, id, true);
    if j >= 20 {
      FlipInTcp(x, id, j, FlipBit(d[j], b));
    } else if j >= 1 {
      FlipInIp(x, id, j, FlipBit(d[j], b));
    } else if b < 4 {
      FlipInIhl(x, id, b);
    } else {
      FlipInVersion(x, id, b);
    }
  }
}
