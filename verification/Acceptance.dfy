/** Exactly which byte strings parse, to what, and with which error the others fail. */
module Acceptance {
  import opened Options
  import opened Serial
  import opened Checksum
  import opened TcpOptions
  import opened Wire

  // ---- Big-endian numbers --------------------------------------------------

  /** Two bytes as a number, most significant first. */
  function Num16(b: seq<u8>, i: nat): int
    requires i + 2 <= |b|
  {
    0x100 * (b[i] as int) + b[i + 1]
  }

  /** Four bytes as a number, most significant first. */
  function Num32(b: seq<u8>, i: nat): int
    requires i + 4 <= |b|
  {
    0x1_0000 * Num16(b, i) + Num16(b, i + 2)
  }

  // ---- Options -------------------------------------------------------------

  /** The lengths the standards allow: 4 for MSS (2), 3 for window scale (3), 2 for SACK
      permitted (4), 10, 18, 26 or 34 for SACK (5), 10 for timestamps (8). */
  predicate LegalLength(kind: int, len: int) {
    && len >= 2
    && (kind == 2 ==> len == 4) && (kind == 3 ==> len == 3) && (kind == 4 ==> len == 2)
    && (kind == 5 ==> len == 10 || len == 18 || len == 26 || len == 34)
    && (kind == 8 ==> len == 10)
  }

  /** An option with its length and data stands at `c`. */
  predicate OptionAt(b: seq<u8>, c: nat) {
    c + 2 <= |b| && b[c] >= 2 && LegalLength(b[c], b[c + 1]) && c + b[c + 1] <= |b|
  }

  /** Options and NOPs stand one after another at `cuts`, up to the end or an
      end-of-options byte at the last. */
  predicate Layout(b: seq<u8>, cuts: seq<nat>) {
    && cuts != [] && cuts[0] == 0
    && (forall k :: 0 <= k < |cuts| - 1 ==> Placed(b, cuts[k], cuts[k + 1]))
    && Ends(b, cuts[|cuts| - 1])
  }

  /** A NOP or an option from `c` to `d`. */
  predicate Placed(b: seq<u8>, c: nat, d: nat) {
    c < |b| && ((b[c] == 1 && d == c + 1) || (OptionAt(b, c) && d == c + b[c + 1]))
  }

  predicate Ends(b: seq<u8>, c: nat) {
    c == |b| || (c < |b| && b[c] == 0)
  }

  function KindAt(b: seq<u8>, c: nat): int {
    if c < |b| then b[c] else 0
  }

  /** Of the first `n` options, the last of its kind is number `k`. */
  predicate LastOf(b: seq<u8>, cuts: seq<nat>, n: nat, kind: int, k: nat)
    requires n <= |cuts|
  {
    k < n && KindAt(b, cuts[k]) == kind && forall j :: k < j < n ==> KindAt(b, cuts[j]) != kind
  }

  predicate NoneOf(b: seq<u8>, cuts: seq<nat>, n: nat, kind: int)
    requires n <= |cuts|
  {
    forall j :: 0 <= j < n ==> KindAt(b, cuts[j]) != kind
  }

  /** What the first `n` options say: of each kind, the last counts. */
  ghost predicate Say(b: seq<u8>, cuts: seq<nat>, n: nat, o: Opts)
    requires n <= |cuts|
  {
    && (NoneOf(b, cuts, n, 2) ==> o.mss == Option.None)
    && (NoneOf(b, cuts, n, 3) ==> o.wscale == Option.None)
    && (NoneOf(b, cuts, n, 5) ==> o.sack == [])
    && (NoneOf(b, cuts, n, 8) ==> o.ts == Option.None)
    && (o.sackPermitted <==> !NoneOf(b, cuts, n, 4))
    && (forall k: nat :: LastOf(b, cuts, n, 2, k) ==> MssAt(b, cuts[k], o))
    && (forall k: nat :: LastOf(b, cuts, n, 3, k) ==> WscaleAt(b, cuts[k], o))
    && (forall k: nat :: LastOf(b, cuts, n, 5, k) ==> SackAt(b, cuts[k], o))
    && (forall k: nat :: LastOf(b, cuts, n, 8, k) ==> TsAt(b, cuts[k], o))
  }

  predicate MssAt(b: seq<u8>, c: nat, o: Opts) {
    c + 4 <= |b| && o.mss.Some? && o.mss.value == Num16(b, c + 2)
  }

  /** A shift count above 14 is taken as 14. */
  predicate WscaleAt(b: seq<u8>, c: nat, o: Opts) {
    c + 3 <= |b| && o.wscale.Some? && o.wscale.value == Min(b[c + 2], 14)
  }

  predicate SackAt(b: seq<u8>, c: nat, o: Opts) {
    && c + 2 + 8 * |o.sack| <= |b| && b[c + 1] == 2 + 8 * |o.sack|
    && forall i :: 0 <= i < |o.sack| ==>
         o.sack[i].0 == Num32(b, c + 2 + 8 * i) && o.sack[i].1 == Num32(b, c + 6 + 8 * i)
  }

  predicate TsAt(b: seq<u8>, c: nat, o: Opts) {
    && c + 10 <= |b| && o.ts.Some?
    && o.ts.value.0 == Num32(b, c + 2) && o.ts.value.1 == Num32(b, c + 6)
  }

  lemma NumsAre(b: seq<u8>, i: nat)
    ensures i + 2 <= |b| ==> Get16(b, i) == Num16(b, i)
    ensures i + 4 <= |b| ==> Get32(b, i) == Num32(b, i)
  {
  }

  lemma LengthsAre(kind: u8, len: u8)
    requires kind >= 2
    ensures LengthOk(kind, len) <==> LegalLength(kind, len)
  {
  }

  lemma {:induction false} BlocksAre(b: seq<u8>, at: nat, n: nat, i: nat)
    requires at + 8 * n <= |b| && i < n
    ensures ReadBlocks(b, at, n)[i] == (Num32(b, at + 8 * i), Num32(b, at + 8 * i + 4))
    decreases n
  {
    hide Num32, Get32;
    if i == 0 {
      NumsAre(b, at);
      NumsAre(b, at + 4);
    } else {
      BlocksAre(b, at + 8, n - 1, i - 1);
    }
  }

  /** What one option adds, seen in place. */
  lemma SeenSays(b: seq<u8>, c: nat, o: Opts)
    requires OptionAt(b, c)
    ensures var r := b[c..];
            && |r| >= 2 && LengthOk(r[0], r[1]) && r[1] <= |r|
            && var o' := Seen(r, o);
            && (if b[c] == 2 then MssAt(b, c, o') else o'.mss == o.mss)
            && (if b[c] == 3 then WscaleAt(b, c, o') else o'.wscale == o.wscale)
            && (if b[c] == 5 then SackAt(b, c, o') else o'.sack == o.sack)
            && (if b[c] == 8 then TsAt(b, c, o') else o'.ts == o.ts)
            && (o'.sackPermitted <==> o.sackPermitted || b[c] == 4)
  {
    hide Get16, Get32, ReadBlocks;
    var r := b[c..];
    assert r[0] == b[c] && r[1] == b[c + 1];
    LengthsAre(r[0], r[1]);
    if b[c] == 2 {
      NumsAre(r, 2);
      SameNum(b, c, 2);
    } else if b[c] == 5 {
      SackSays(b, c, o);
    } else if b[c] == 8 {
      NumsAre(r, 2);
      NumsAre(r, 6);
      SameNum(b, c, 2);
      SameNum(b, c, 6);
    }
  }

  lemma SameNum(b: seq<u8>, c: nat, i: nat)
    requires c <= |b|
    ensures c + i + 2 <= |b| ==> Num16(b[c..], i) == Num16(b, c + i)
    ensures c + i + 4 <= |b| ==> Num32(b[c..], i) == Num32(b, c + i)
  {
  }

  lemma SackSays(b: seq<u8>, c: nat, o: Opts)
    requires OptionAt(b, c) && b[c] == 5
    ensures var r := b[c..];
            |r| >= 2 && LengthOk(r[0], r[1]) && r[1] <= |r| && SackAt(b, c, Seen(r, o))
  {
    hide Num32;
    var r := b[c..];
    var n := (r[1] - 2) / 8;
    var xs := ReadBlocks(r, 2, n);
    forall i | 0 <= i < n ensures xs[i].0 == Num32(b, c + 2 + 8 * i) && xs[i].1 == Num32(b, c + 6 + 8 * i) {
      BlocksAre(r, 2, n, i);
      SameNum(b, c, 2 + 8 * i);
      SameNum(b, c, 6 + 8 * i);
    }
  }

  lemma OneMore(b: seq<u8>, cuts: seq<nat>, n: nat, kind: int)
    requires n < |cuts|
    ensures NoneOf(b, cuts, n + 1, kind) <==> NoneOf(b, cuts, n, kind) && KindAt(b, cuts[n]) != kind
    ensures forall k: nat :: LastOf(b, cuts, n + 1, kind, k) <==>
              if KindAt(b, cuts[n]) == kind then k == n else LastOf(b, cuts, n, kind, k)
  {
    forall k: nat ensures LastOf(b, cuts, n + 1, kind, k) <==>
      if KindAt(b, cuts[n]) == kind then k == n else LastOf(b, cuts, n, kind, k)
    {
      assert k < n && LastOf(b, cuts, n + 1, kind, k) ==> KindAt(b, cuts[n]) != kind;
    }
  }

  lemma SayOneMore(b: seq<u8>, cuts: seq<nat>, n: nat, o: Opts, o': Opts)
    requires n < |cuts| && Say(b, cuts, n, o)
    requires var c := cuts[n];
             && (if KindAt(b, c) == 2 then MssAt(b, c, o') else o'.mss == o.mss)
             && (if KindAt(b, c) == 3 then WscaleAt(b, c, o') else o'.wscale == o.wscale)
             && (if KindAt(b, c) == 5 then SackAt(b, c, o') else o'.sack == o.sack)
             && (if KindAt(b, c) == 8 then TsAt(b, c, o') else o'.ts == o.ts)
             && (o'.sackPermitted <==> o.sackPermitted || KindAt(b, c) == 4)
    ensures Say(b, cuts, n + 1, o')
  {
    hide LastOf, NoneOf, KindAt, Num16, Num32;
    OneMore(b, cuts, n, 2);
    OneMore(b, cuts, n, 3);
    OneMore(b, cuts, n, 4);
    OneMore(b, cuts, n, 5);
    OneMore(b, cuts, n, 8);
  }

  /** From option `n` on, parsing gives what all the options say. */
  lemma {:induction false} ParseSays(b: seq<u8>, cuts: seq<nat>, n: nat, o: Opts)
    requires Layout(b, cuts) && n < |cuts| && cuts[n] <= |b| && Say(b, cuts, n, o)
    ensures var r := ParseFrom(b[cuts[n]..], o);
            r.Ok? && Say(b, cuts, |cuts| - 1, r.value)
    decreases |cuts| - n
  {
    hide Say, Seen, MssAt, WscaleAt, SackAt, TsAt, LengthOk;
    var c := cuts[n];
    var r := b[c..];
    if n == |cuts| - 1 {
      assert r == [] || r[0] == 0;
    } else {
      assert Placed(b, c, cuts[n + 1]);
      assert r[0] == b[c];
      if b[c] == 1 {
        assert r[1..] == b[c + 1..];
        SayOneMore(b, cuts, n, o, o);
        ParseSays(b, cuts, n + 1, o);
      } else {
        SeenSays(b, c, o);
        assert r[1] == b[c + 1] && r[r[1]..] == b[c + b[c + 1]..];
        SayOneMore(b, cuts, n, o, Seen(r, o));
        ParseSays(b, cuts, n + 1, Seen(r, o));
      }
    }
  }

  /** If the bytes from `c` on parse, they lay out from there. */
  lemma {:induction false} ParsedLaysOut(b: seq<u8>, c: nat, o: Opts) returns (cuts: seq<nat>)
    requires c <= |b| && ParseFrom(b[c..], o).Ok?
    ensures cuts != [] && cuts[0] == c && Ends(b, cuts[|cuts| - 1])
    ensures forall k :: 0 <= k < |cuts| - 1 ==> Placed(b, cuts[k], cuts[k + 1])
    decreases |b| - c
  {
    var r := b[c..];
    if r == [] || r[0] == 0 {
      cuts := [c];
    } else {
      var d, o' := c + 1, o;
      if r[0] == 1 {
        assert r[1..] == b[c + 1..];
      } else {
        LengthsAre(r[0], r[1]);
        assert r[1] == b[c + 1] && r[r[1]..] == b[c + b[c + 1]..];
        d, o' := c + b[c + 1], Seen(r, o);
      }
      var rest := ParsedLaysOut(b, d, o');
      assert Placed(b, c, d);
      cuts := [c] + rest;
    }
  }

  ghost predicate LaysOut(b: seq<u8>) {
    exists cuts :: Layout(b, cuts)
  }

  /** Options parse exactly when they lay out, and mean what the last of each kind
      says; otherwise the packet is malformed. */
  lemma OptionsIff(b: seq<u8>)
    ensures Parse(b).Ok? <==> LaysOut(b)
    ensures forall cuts :: Layout(b, cuts) ==> Parse(b).Ok? && Say(b, cuts, |cuts| - 1, Parse(b).value)
    ensures Parse(b).Err? ==> Parse(b).error == MalformedPacket
  {
    hide Say;
    assert b[0..] == b;
    if Parse(b).Ok? {
      var cuts := ParsedLaysOut(b, 0, NONE);
      assert Layout(b, cuts);
    }
    forall cuts | Layout(b, cuts) ensures Parse(b).Ok? && Say(b, cuts, |cuts| - 1, Parse(b).value) {
      NothingSaid(b, cuts);
      ParseSays(b, cuts, 0, NONE);
    }
    OnlyMalformed(b, NONE);
  }

  lemma NothingSaid(b: seq<u8>, cuts: seq<nat>)
    ensures Say(b, cuts, 0, NONE)
  {
  }

  lemma {:induction false} OnlyMalformed(b: seq<u8>, o: Opts)
    ensures ParseFrom(b, o).Err? ==> ParseFrom(b, o).error == MalformedPacket
    decreases |b|
  {
    if b == [] || b[0] == 0 {
    } else if b[0] == 1 {
      OnlyMalformed(b[1..], o);
    } else if |b| >= 2 && LengthOk(b[0], b[1]) && b[1] <= |b| {
      OnlyMalformed(b[b[1]..], Seen(b, o));
    }
  }

  // ---- Datagrams -----------------------------------------------------------

  /** Header length, by the low half of the first byte. */
  function Ihl(p: seq<u8>): int
    requires |p| >= 20
  {
    4 * (p[0] % 16)
  }

  /** Version 4, and a total length that leaves room for both headers and is there. */
  predicate Framed(p: seq<u8>) {
    |p| >= 20 && 4 * 16 <= p[0] < 5 * 16 && Ihl(p) >= 20 && Ihl(p) + 20 <= Num16(p, 2) <= |p|
  }

  /** More fragments follow, or this one is not the first. */
  predicate Fragment(p: seq<u8>)
    requires |p| >= 20
  {
    (p[6] / 32) % 2 == 1 || p[6] % 32 != 0 || p[7] != 0
  }

  /** The words of `data`, summed in ones' complement, give all ones. */
  predicate SumsUp(data: seq<u8>) {
    WordSum(data) > 0 && WordSum(data) % 0xFFFF == 0
  }

  /** The pseudo-header of section 3.1 of RFC 9293, then the segment. */
  function WithPseudo(addresses: seq<u8>, tcp: seq<u8>): seq<u8>
    requires |tcp| < 0x1_0000
  {
    addresses + [0, 6, |tcp| / 0x100, |tcp| % 0x100] + tcp
  }

  function TcpPart(p: seq<u8>): (t: seq<u8>)
    requires Framed(p)
    ensures |t| >= 20
  {
    p[Ihl(p)..Num16(p, 2)]
  }

  function DataOffset(t: seq<u8>): int
    requires |t| >= 20
  {
    4 * (t[12] / 16)
  }

  /** All that makes a datagram acceptable. */
  ghost predicate Acceptable(p: seq<u8>, verify: bool) {
    && Framed(p) && !Fragment(p) && p[9] == 6 && SumsUp(p[..Ihl(p)])
    && var t := TcpPart(p);
       && 20 <= DataOffset(t) <= |t| && LaysOut(t[20..DataOffset(t)])
       && (verify ==> SumsUp(WithPseudo(p[12..20], t)))
  }

  /** What an acceptable datagram carries, field by field. */
  ghost predicate Carries(p: seq<u8>, x: Segment)
    requires Framed(p) && 20 <= DataOffset(TcpPart(p)) <= |TcpPart(p)|
  {
    var t := TcpPart(p);
    var n := DataOffset(t);
    && x.src == p[12..16] && x.dst == p[16..20] && x.ecn == p[1] % 4
    && x.srcPort == Num16(t, 0) && x.dstPort == Num16(t, 2)
    && x.seqNo == Num32(t, 4) && x.ackNo == Num32(t, 8)
    && x.flags == t[13] && x.window == Num16(t, 14) && x.payload == t[n..]
    && forall cuts :: Layout(t[20..n], cuts) ==> Say(t[20..n], cuts, |cuts| - 1, x.options)
  }

  lemma SumIff(data: seq<u8>)
    ensures Sum16(data, 0) == 0 <==> SumsUp(data)
  {
    hide WordSum;
  }

  lemma PseudoIff(p: seq<u8>, t: seq<u8>)
    requires |p| >= 20 && |t| < 0x1_0000
    ensures Sum16(t, PseudoSum(p[12..16], p[16..20], |t|)) == Sum16(WithPseudo(p[12..20], t), 0)
  {
    hide WordSum;
    var src, dst, rest := p[12..16], p[16..20], [0, 6, |t| / 0x100, |t| % 0x100];
    assert p[12..20] == src + dst;
    assert WithPseudo(p[12..20], t) == src + dst + rest + t;
    WordSumAppend(src, dst);
    WordSumAppend(src + dst, rest);
    WordSumAppend(src + dst + rest, t);
    FourSum(src);
    FourSum(dst);
    FourSum(rest);
  }

  lemma FragmentIff(p: seq<u8>)
    requires |p| >= 20
    ensures Get16(p, 6) / 0x2000 % 2 != 0 || Get16(p, 6) % 0x2000 != 0 <==> Fragment(p)
  {
    var a: int, b: int := p[6], p[7];
    assert (256 * a + b) / 0x2000 == a / 32;
    assert (256 * a + b) % 0x2000 == 256 * (a % 32) + b;
  }

  /** A datagram is accepted exactly when it is framed whole, not a fragment, TCP, and
      its checksums, data offset and options are right; it is not for us exactly when
      it is framed whole, not a fragment and not TCP; all else is malformed. */
  lemma AcceptedIff(p: seq<u8>, verify: bool)
    ensures ParsePacket(p, verify).Ok? <==> Acceptable(p, verify)
    ensures ParsePacket(p, verify) == Err(NotForUs) <==> Framed(p) && !Fragment(p) && p[9] != 6
    ensures ParsePacket(p, verify).Err? ==> ParsePacket(p, verify).error in {NotForUs, MalformedPacket}
    ensures Acceptable(p, verify) ==> Carries(p, ParsePacket(p, verify).value)
  {
    hide Get16, Get32, Num16, Num32, Sum16, SumsUp, Fragment, ParseTcp, LaysOut, Layout, Say, PseudoSum, WithPseudo;
    if |p| >= 20 {
      NumsAre(p, 2);
      FragmentIff(p);
      SumOfHeader(p);
      if Framed(p) && !Fragment(p) {
        TcpIff(p, TcpPart(p), verify);
      }
    }
  }

  lemma SumOfHeader(p: seq<u8>)
    requires |p| >= 20
    ensures Ihl(p) <= |p| ==> (Sum16(p[..Ihl(p)], 0) == 0 <==> SumsUp(p[..Ihl(p)]))
  {
    if Ihl(p) <= |p| {
      SumIff(p[..Ihl(p)]);
    }
  }

  lemma TcpIff(p: seq<u8>, t: seq<u8>, verify: bool)
    requires |p| >= 20 && 20 <= |t| < 0x1_0000
    ensures var r := ParseTcp(t, p[12..16], p[16..20], p[1] % 4, verify);
            var n := DataOffset(t);
            && (r.Ok? <==> 20 <= n <= |t| && LaysOut(t[20..n]) && (verify ==> SumsUp(WithPseudo(p[12..20], t))))
            && (r.Err? ==> r.error == MalformedPacket)
            && (r.Ok? ==>
                  var x := r.value;
                  && x.src == p[12..16] && x.dst == p[16..20] && x.ecn == p[1] % 4
                  && x.srcPort == Num16(t, 0) && x.dstPort == Num16(t, 2)
                  && x.seqNo == Num32(t, 4) && x.ackNo == Num32(t, 8)
                  && x.flags == t[13] && x.window == Num16(t, 14) && x.payload == t[n..]
                  && forall cuts :: Layout(t[20..n], cuts) ==> Say(t[20..n], cuts, |cuts| - 1, x.options))
  {
    hide Get16, Get32, Num16, Num32, Sum16, SumsUp, LaysOut, Layout, Say, PseudoSum, WithPseudo, Parse;
    var n := DataOffset(t);
    PseudoIff(p, t);
    SumIff(WithPseudo(p[12..20], t));
    NumsAre(t, 0);
    NumsAre(t, 2);
    NumsAre(t, 4);
    NumsAre(t, 8);
    NumsAre(t, 14);
    if 20 <= n <= |t| {
      OptionsIff(t[20..n]);
    }
  }

  /** No fragment gets through. */
  lemma FragmentRejected(p: seq<u8>, verify: bool)
    requires |p| >= 20 && Fragment(p)
    ensures ParsePacket(p, verify) == Err(MalformedPacket)
  {
    hide ParsePacket, Acceptable, Carries, Fragment, Framed;
    AcceptedIff(p, verify);
    NotAcceptable(p, verify);
  }

  lemma NotAcceptable(p: seq<u8>, verify: bool)
    requires |p| >= 20 && Fragment(p)
    ensures !Acceptable(p, verify)
  {
  }

  // ---- Built datagrams on the wire -----------------------------------------

  /** What the header of a datagram this stack builds looks like: version 4, five words
      of IP header, "don't fragment", 64 hops, TCP, every field most significant byte
      first, no urgent data. */
  lemma HeadersOnWire(x: Segment, id: u16, full: bool)
    requires Sane(x) && Fits(x)
    ensures var d := Datagram(x, id, full);
            var h, t := d[..20], d[20..|d|];
            && h[0] == 0x45 && h[1] == x.ecn && Num16(h, 2) == |d| && Num16(h, 4) == id
            && Num16(h, 6) == 0x4000 && h[8] == 64 && h[9] == 6
            && h[12..16] == x.src && h[16..20] == x.dst
            && Num16(t, 0) == x.srcPort && Num16(t, 2) == x.dstPort
            && Num32(t, 4) == x.seqNo && Num32(t, 8) == x.ackNo
            && t[12] == 0x10 * (5 + EncodedLen(x.options) / 4)
            && t[13] == x.flags && Num16(t, 14) == x.window && Num16(t, 18) == 0
  {
    hide Sum16, EncodedLen, Get16, Get32, TcpSegment, Num16, Num32, IpHeader, Datagram;
    var h, t := IpHeader(x, id), TcpSegment(x, full);
    IpFields(x, id);
    RestOfIp(x, id);
    DatagramParts(x, id, full);
    NumsAre(h, 2);
    NumsAre(h, 6);
    TcpFields(x, full);
    NoUrgent(x, full);
    OffsetByte(x);
    NumsAre(t, 0);
    NumsAre(t, 2);
    NumsAre(t, 4);
    NumsAre(t, 8);
    NumsAre(t, 14);
  }

  lemma RestOfIp(x: Segment, id: u16)
    requires Sane(x) && Fits(x)
    ensures Num16(IpHeader(x, id), 4) == id && IpHeader(x, id)[8] == 64
  {
    hide Sum16, EncodedLen;
  }

  lemma NoUrgent(x: Segment, full: bool)
    requires Sane(x) && Fits(x)
    ensures Num16(TcpSegment(x, full), 18) == 0
  {
    hide Sum16, BE16, BE32, Encode, EncodedLen;
    var t, h := TcpSegment(x, full), TcpHead(x);
    assert t[18] == TcpBase(x)[18] == h[18] && t[19] == TcpBase(x)[19] == h[19];
  }

  lemma OffsetByte(x: Segment)
    ensures (20 + EncodedLen(x.options)) / 4 * 16 == 0x10 * (5 + EncodedLen(x.options) / 4)
  {
    hide RawLen;
  }
}
