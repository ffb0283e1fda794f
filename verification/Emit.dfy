/** Writing a datagram into a caller's buffer, field by field. */
module Emit {
  import opened Serial
  import opened Checksum
  import opened TcpOptions
  import opened Wire

  /** What is sent of fields given out of range: two ECN bits, a shift of at most 14. */
  function Normal(x: Segment): Segment {
    var o := x.options;
    x.(ecn := x.ecn % 4,
       options := if o.wscale.Some? then o.(wscale := Options.Some(Min(o.wscale.value, 14))) else o)
  }

  lemma NormalEncodes(x: Segment)
    requires |x.options.sack| <= 4
    ensures Encode(Normal(x).options) == Encode(x.options)
    ensures EncodedLen(Normal(x).options) == EncodedLen(x.options)
  {
    hide MssBytes, TsBytes, SackBytes, PermittedBytes;
    var o, o' := x.options, Normal(x).options;
    assert WscaleBytes(o) == WscaleBytes(o');
    PiecesDepend(o, o');
  }

  /** The other options do not depend on the window scale. */
  lemma PiecesDepend(o: Opts, o': Opts)
    requires |o.sack| <= 4 && o.(wscale := o'.wscale) == o'
    ensures MssBytes(o) == MssBytes(o') && PermittedBytes(o) == PermittedBytes(o')
    ensures TsBytes(o) == TsBytes(o') && SackBytes(o) == SackBytes(o')
  {
  }

  /** Write `s` after the `at` bytes already written. */
  method Append(out: array<u8>, at: nat, s: seq<u8>, ghost done: seq<u8>) returns (next: nat)
    requires at + |s| <= out.Length && out[..at] == done
    modifies out
    ensures next == at + |s| && out[..next] == done + s
    ensures forall k :: next <= k < out.Length ==> out[k] == old(out[k])
  {
    forall k | at <= k < at + |s| {
      out[k] := s[k - at];
    }
    next := at + |s|;
  }

  method PutMss(o: Opts, out: array<u8>, at: nat, ghost done: seq<u8>) returns (next: nat)
    requires at + |MssBytes(o)| <= out.Length && out[..at] == done
    modifies out
    ensures next == at + |MssBytes(o)| && out[..next] == done + MssBytes(o)
    ensures forall k :: next <= k < out.Length ==> out[k] == old(out[k])
  {
    hide BE16, BE32;
    next := at;
    if o.mss.Some? {
      next := Append(out, at, [2, 4] + BE16(o.mss.value), done);
    }
  }

  method PutWscale(o: Opts, out: array<u8>, at: nat, ghost done: seq<u8>) returns (next: nat)
    requires at + |WscaleBytes(o)| <= out.Length && out[..at] == done
    modifies out
    ensures next == at + |WscaleBytes(o)| && out[..next] == done + WscaleBytes(o)
    ensures forall k :: next <= k < out.Length ==> out[k] == old(out[k])
  {
    hide BE16, BE32;
    next := at;
    if o.wscale.Some? {
      next := Append(out, at, [3, 3, Min(o.wscale.value, 14)], done);
    }
  }

  method PutPermitted(o: Opts, out: array<u8>, at: nat, ghost done: seq<u8>) returns (next: nat)
    requires at + |PermittedBytes(o)| <= out.Length && out[..at] == done
    modifies out
    ensures next == at + |PermittedBytes(o)| && out[..next] == done + PermittedBytes(o)
    ensures forall k :: next <= k < out.Length ==> out[k] == old(out[k])
  {
    hide BE16, BE32;
    next := at;
    if o.sackPermitted {
      next := Append(out, at, [4, 2], done);
    }
  }

  method PutTs(o: Opts, out: array<u8>, at: nat, ghost done: seq<u8>) returns (next: nat)
    requires at + |TsBytes(o)| <= out.Length && out[..at] == done
    modifies out
    ensures next == at + |TsBytes(o)| && out[..next] == done + TsBytes(o)
    ensures forall k :: next <= k < out.Length ==> out[k] == old(out[k])
  {
    hide BE16, BE32;
    next := at;
    if o.ts.Some? {
      next := Append(out, at, [8, 10] + BE32(o.ts.value.0) + BE32(o.ts.value.1), done);
    }
  }

  lemma PieceLengths(o: Opts)
    requires |o.sack| <= 4
    ensures |MssBytes(o)| + |WscaleBytes(o)| + |PermittedBytes(o)| + |TsBytes(o)| + |SackBytes(o)| == RawLen(o)
    ensures RawLen(o) <= EncodedLen(o)
  {
  }

  /** `TcpOptions::write`: each option present, then NOPs up to a multiple of four. */
  method WriteOptions(o: Opts, out: array<u8>, at: nat, ghost done: seq<u8>) returns (next: nat)
    requires |o.sack| <= 4 && at + EncodedLen(o) <= out.Length && out[..at] == done
    modifies out
    ensures next == at + EncodedLen(o) && out[..next] == done + Encode(o)
    ensures forall k :: next <= k < out.Length ==> out[k] == old(out[k])
  {
    hide MssBytes, WscaleBytes, PermittedBytes, TsBytes, SackBytes, RawLen, EncodedLen;
    PieceLengths(o);
    ghost var d := done;
    next := PutMss(o, out, at, d);
    d := d + MssBytes(o);
    next := PutWscale(o, out, next, d);
    d := d + WscaleBytes(o);
    next := PutPermitted(o, out, next, d);
    d := d + PermittedBytes(o);
    next := PutTs(o, out, next, d);
    d := d + TsBytes(o);
    next := PutSack(o, out, next, d);
    d := d + SackBytes(o);
    next := Pad(out, next, at + EncodedLen(o), d);
    assert done + Encode(o) == d + Nops(EncodedLen(o) - RawLen(o));
  }

  method PutSack(o: Opts, out: array<u8>, at: nat, ghost done: seq<u8>) returns (next: nat)
    requires |o.sack| <= 4 && at + |SackBytes(o)| <= out.Length && out[..at] == done
    modifies out
    ensures next == at + |SackBytes(o)| && out[..next] == done + SackBytes(o)
    ensures forall k :: next <= k < out.Length ==> out[k] == old(out[k])
  {
    hide BE32, BlockBytes;
    next := at;
    if o.sack == [] {
      return;
    }
    ghost var kind := [5, 2 + 8 * |o.sack|];
    next := Append(out, at, [5, 2 + 8 * |o.sack|], done);
    next := PutBlocks(o.sack, out, next, done + kind);
    Joined(done, kind, BlockBytes(o.sack));
  }

  method PutBlocks(sack: seq<(u32, u32)>, out: array<u8>, at: nat, ghost done: seq<u8>) returns (next: nat)
    requires at + 8 * |sack| <= out.Length && out[..at] == done
    modifies out
    ensures next == at + 8 * |sack| && out[..next] == done + BlockBytes(sack)
    ensures forall k :: next <= k < out.Length ==> out[k] == old(out[k])
  {
    hide BE32, BlockBytes;
    next := at;
    NoBlocks(sack);
    for k := 0 to |sack|
      invariant next == at + 8 * k && out[..next] == done + BlockBytes(sack[..k])
      invariant forall j :: next <= j < out.Length ==> out[j] == old(out[j])
    {
      BlocksGrow(sack, k);
      ghost var block := BE32(sack[k].0) + BE32(sack[k].1);
      Joined(done, BlockBytes(sack[..k]), block);
      next := Append(out, next, BE32(sack[k].0) + BE32(sack[k].1), done + BlockBytes(sack[..k]));
    }
    assert sack[..|sack|] == sack;
  }

  lemma Joined(a: seq<u8>, b: seq<u8>, c: seq<u8>)
    ensures a + b + c == a + (b + c)
  {
  }

  lemma NoBlocks(sack: seq<(u32, u32)>)
    ensures BlockBytes(sack[..0]) == []
  {
  }

  lemma {:induction false} BlocksGrow(sack: seq<(u32, u32)>, k: nat)
    requires k < |sack|
    ensures BlockBytes(sack[..k + 1]) == BlockBytes(sack[..k]) + (BE32(sack[k].0) + BE32(sack[k].1))
    decreases k
  {
    hide BE32;
    if k > 0 {
      assert sack[..k + 1][1..] == sack[1..][..k] && sack[..k][1..] == sack[1..][..k - 1];
      BlocksGrow(sack[1..], k - 1);
    } else {
      assert sack[..1][1..] == [] && sack[..0] == [];
    }
  }

  /** NOPs up to `target`. */
  method Pad(out: array<u8>, at: nat, target: nat, ghost done: seq<u8>) returns (next: nat)
    requires at <= target <= out.Length && out[..at] == done
    modifies out
    ensures next == target && out[..next] == done + Nops(target - at)
    ensures forall k :: next <= k < out.Length ==> out[k] == old(out[k])
  {
    next := at;
    while next < target
      invariant at <= next <= target && out[..next] == done + Nops(next - at)
      invariant forall k :: target <= k < out.Length ==> out[k] == old(out[k])
    {
      out[next] := 1;
      next := next + 1;
    }
  }

  /** The IPv4 header, field by field, then its checksum. */
  method WriteIp(x: Segment, id: u16, out: array<u8>, little: bool) returns (next: nat)
    requires Sane(Normal(x)) && Fits(Normal(x)) && 20 <= out.Length
    modifies out
    ensures next == 20 && out[..next] == IpHeader(Normal(x), id)
    ensures forall k :: next <= k < out.Length ==> out[k] == old(out[k])
  {
    hide Sum16, Encode, EncodedLen, RawLen, Clean;
    var n := TotalLen(Normal(x));
    next := Append(out, 0, [0x45, x.ecn % 4, n / 256, n % 256, id / 256, id % 256, 0x40, 0, 64, IPPROTO_TCP, 0, 0], []);
    ghost var head := out[..next];
    next := Append(out, next, x.src, head);
    ghost var head' := out[..next];
    next := Append(out, next, x.dst, head');
    assert out[..20] == IpBase(Normal(x), id);
    var c := Checksum.Checksum(out[..20], 0, little);
    out[10], out[11] := c / 256, c % 256;
  }

  /** The TCP header with a zero checksum, the options, then the payload. */
  method WriteTcp(x: Segment, out: array<u8>, ghost ip: seq<u8>) returns (next: nat)
    requires Sane(Normal(x)) && Fits(Normal(x)) && TotalLen(x) <= out.Length
    requires |ip| == 20 && out[..20] == ip
    modifies out
    ensures next == TotalLen(x) && out[..next] == ip + TcpBase(Normal(x))
    ensures forall k :: next <= k < out.Length ==> out[k] == old(out[k])
  {
    hide BE16, BE32, Encode, EncodedLen, RawLen;
    NormalEncodes(x);
    var head := BE16(x.srcPort) + BE16(x.dstPort) + BE32(x.seqNo) + BE32(x.ackNo)
                + [(20 + EncodedLen(x.options)) / 4 * 16, x.flags] + BE16(x.window) + [0, 0, 0, 0];
    assert head == TcpHead(Normal(x));
    next := Append(out, 20, head, ip);
    ghost var d := ip + head;
    next := WriteOptions(x.options, out, next, d);
    d := d + Encode(x.options);
    next := Append(out, next, x.payload, d);
    assert d + x.payload == ip + TcpBase(Normal(x));
  }

  /** `tcp_checksum` and `tcp_partial_checksum`. */
  method SegmentSum(x: Segment, segment: seq<u8>, full: bool, little: bool) returns (c: u16)
    requires |x.src| == 4 && |x.dst| == 4 && |segment| <= 0xFFFF
    ensures var seed := PseudoSum(x.src, x.dst, |segment|);
            c == if full then Sum16(segment, seed) else ONES16 - Sum16([], seed)
  {
    var seed := PseudoSum(x.src, x.dst, |segment|);
    if full {
      c := Checksum.Checksum(segment, seed, little);
    } else {
      var sum := Checksum.Checksum([], seed, little);
      c := ONES16 - sum;
    }
  }

  /** `emit_with`: `filled` is whether the callback could supply the payload. */
  method EmitWith(x: Segment, id: u16, filled: bool, full: bool, little: bool, out: array<u8>)
    returns (r: Result<nat>)
    requires |x.src| == 4 && |x.dst| == 4 && |x.options.sack| <= 4
    modifies out
    ensures r.Ok? <==> Fits(Normal(x)) && TotalLen(x) <= out.Length && filled
    ensures r.Err? ==> r.error == if EncodedLen(x.options) <= 40 && out.Length < TotalLen(x)
                                  then BufferTooSmall else Overflow
    ensures !(Fits(Normal(x)) && TotalLen(x) <= out.Length) ==> out[..] == old(out[..])
    ensures r.Ok? ==> r.value == TotalLen(x) && Sane(Normal(x))
                      && out[..r.value] == Datagram(Normal(x), id, full)
    ensures forall k :: TotalLen(x) <= k < out.Length ==> out[k] == old(out[k])
  {
    hide Encode, EncodedLen, RawLen, IpHeader, TcpBase, Sum16, PseudoSum;
    NormalEncodes(x);
    var opt := EncodedLen(x.options);
    if opt % 4 != 0 || opt > 40 {
      assert opt > 40 by { MultipleOfFour(x.options); }
      return Err(Overflow);
    }
    var total := 40 + opt + |x.payload|;
    if out.Length < total {
      return Err(BufferTooSmall);
    }
    if total > 0xFFFF {
      return Err(Overflow);
    }
    var next := WriteIp(x, id, out, little);
    ghost var ip := out[..20];
    next := WriteTcp(x, out, ip);
    if !filled {
      return Err(Overflow);
    }
    assert out[20..total] == TcpBase(Normal(x));
    var c := SegmentSum(x, out[20..total], full, little);
    out[36], out[37] := c / 256, c % 256;
    assert out[..total] == ip + Put16(TcpBase(Normal(x)), 16, c);
    r := Ok(total);
  }

  lemma MultipleOfFour(o: Opts)
    ensures EncodedLen(o) % 4 == 0
  {
  }

  /** `emit`: the whole buffer then parses back to what was sent. */
  method EmitSegment(x: Segment, id: u16, little: bool, out: array<u8>) returns (r: Result<nat>)
    requires |x.src| == 4 && |x.dst| == 4 && |x.options.sack| <= 4
    modifies out
    ensures r.Ok? <==> Fits(Normal(x)) && TotalLen(x) <= out.Length
    ensures r.Ok? ==> r.value == TotalLen(x) && ParsePacket(out[..], true) == Ok(Normal(x))
    ensures r.Err? ==> out[..] == old(out[..])
    ensures forall k :: TotalLen(x) <= k < out.Length ==> out[k] == old(out[k])
  {
    hide Fits, TotalLen, Datagram, ParsePacket;
    r := EmitWith(x, id, true, true, little, out);
    if r.Ok? {
      DatagramRoundTrip(Normal(x), id, true, true, out[r.value..]);
      assert out[..] == Datagram(Normal(x), id, true) + out[r.value..];
    }
  }
}
