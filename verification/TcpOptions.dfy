/** The TCP options codec. */
module TcpOptions {
  import opened Options
  import opened Serial

  datatype Error = MalformedPacket | NotForUs | Overflow | BufferTooSmall

  datatype Result<+T> = Ok(value: T) | Err(error: Error)

  /** Options carried by a segment; up to four SACK blocks, none meaning absent. */
  datatype Opts = Opts(mss: Option<u16>, wscale: Option<u8>, ts: Option<(u32, u32)>,
                       sackPermitted: bool, sack: seq<(u32, u32)>)

  const NONE: Opts := Opts(Option.None, Option.None, Option.None, false, [])

  /** What the codec can carry unchanged: a legal shift count and at most four blocks. */
  predicate Clean(o: Opts) {
    (o.wscale.Some? ==> o.wscale.value <= 14) && |o.sack| <= 4
  }

  // ---- Big-endian fields ---------------------------------------------------

  function BE16(x: u16): (r: seq<u8>)
    ensures |r| == 2
  {
    [x / 256, x % 256]
  }

  function BE32(x: u32): (r: seq<u8>)
    ensures |r| == 4
  {
    [x / 0x100_0000, x / 0x1_0000 % 256, x / 0x100 % 256, x % 256]
  }

  function Get16(b: seq<u8>, i: nat): u16
    requires i + 2 <= |b|
  {
    var hi: int := b[i];
    256 * hi + b[i + 1]
  }

  function Get32(b: seq<u8>, i: nat): u32
    requires i + 4 <= |b|
  {
    var b0: int, b1: int, b2: int := b[i], b[i + 1], b[i + 2];
    0x100_0000 * b0 + 0x1_0000 * b1 + 0x100 * b2 + b[i + 3]
  }

  lemma Read16(b: seq<u8>, i: nat, x: u16)
    requires i + 2 <= |b| && b[i..i + 2] == BE16(x)
    ensures Get16(b, i) == x
  {
    assert b[i] == b[i..i + 2][0] && b[i + 1] == b[i..i + 2][1];
  }

  lemma Read32(b: seq<u8>, i: nat, x: u32)
    requires i + 4 <= |b| && b[i..i + 4] == BE32(x)
    ensures Get32(b, i) == x
  {
    var f := b[i..i + 4];
    assert b[i] == f[0] && b[i + 1] == f[1] && b[i + 2] == f[2] && b[i + 3] == f[3];
    Bytes32(x);
  }

  lemma Bytes32(x: u32)
    ensures 0x100_0000 * (x / 0x100_0000) + 0x1_0000 * (x / 0x1_0000 % 256)
            + 0x100 * (x / 0x100 % 256) + x % 256 == x
  {
    var a, b, c: int := x / 0x100, x / 0x1_0000, x / 0x100_0000;
    assert b == a / 256 && c == b / 256;
  }

  // ---- Encoding ------------------------------------------------------------

  /** Bytes the options take without padding. */
  function RawLen(o: Opts): nat {
    (if o.mss.Some? then 4 else 0) + (if o.wscale.Some? then 3 else 0)
    + (if o.sackPermitted then 2 else 0) + (if o.ts.Some? then 10 else 0)
    + (if o.sack != [] then 2 + 8 * |o.sack| else 0)
  }

  /** Rounded up to a multiple of four. */
  function EncodedLen(o: Opts): nat {
    (RawLen(o) + 3) / 4 * 4
  }

  function MssBytes(o: Opts): seq<u8> {
    if o.mss.Some? then [2, 4] + BE16(o.mss.value) else []
  }

  function WscaleBytes(o: Opts): seq<u8> {
    if o.wscale.Some? then [3, 3, Min(o.wscale.value, 14)] else []
  }

  function PermittedBytes(o: Opts): seq<u8> {
    if o.sackPermitted then [4, 2] else []
  }

  function TsBytes(o: Opts): seq<u8> {
    if o.ts.Some? then [8, 10] + BE32(o.ts.value.0) + BE32(o.ts.value.1) else []
  }

  function BlockBytes(sack: seq<(u32, u32)>): (r: seq<u8>)
    ensures |r| == 8 * |sack|
  {
    if sack == [] then [] else BE32(sack[0].0) + BE32(sack[0].1) + BlockBytes(sack[1..])
  }

  function SackBytes(o: Opts): seq<u8>
    requires |o.sack| <= 4
  {
    if o.sack == [] then [] else [5, 2 + 8 * |o.sack|] + BlockBytes(o.sack)
  }

  function Nops(n: nat): (r: seq<u8>)
    ensures |r| == n
  {
    seq(n, _ => 1)
  }

  /** MSS, window scale, SACK permitted, timestamps, SACK, padded with NOPs. */
  function Encode(o: Opts): (r: seq<u8>)
    requires |o.sack| <= 4
    ensures |r| == EncodedLen(o)
  {
    MssBytes(o) + WscaleBytes(o) + PermittedBytes(o) + TsBytes(o) + SackBytes(o)
    + Nops(EncodedLen(o) - RawLen(o))
  }

  // ---- Parsing -------------------------------------------------------------

  /** `n` blocks from `at` on. */
  function ReadBlocks(b: seq<u8>, at: nat, n: nat): (r: seq<(u32, u32)>)
    requires at + 8 * n <= |b|
    ensures |r| == n
    decreases n
  {
    if n == 0 then []
    else [(Get32(b, at), Get32(b, at + 4))] + ReadBlocks(b, at + 8, n - 1)
  }

  /** Parse the options `b`, on top of those already seen: a repeated option
      overrides, an unknown one is skipped by its length. */
  function ParseFrom(b: seq<u8>, o: Opts): Result<Opts>
    decreases |b|
  {
    if b == [] || b[0] == 0 then Ok(o)
    else if b[0] == 1 then ParseFrom(b[1..], o)
    else if |b| < 2 then Err(MalformedPacket)
    else
      var len := b[1];
      if !LengthOk(b[0], len) || |b| < len then Err(MalformedPacket)
      else ParseFrom(b[len..], Seen(b, o))
  }

  /** The length byte is legal for the kind. */
  predicate LengthOk(kind: u8, len: u8) {
    if kind == 2 then len == 4
    else if kind == 3 then len == 3
    else if kind == 4 then len == 2
    else if kind == 5 then len >= 10 && (len - 2) % 8 == 0 && (len - 2) / 8 <= 4
    else if kind == 8 then len == 10
    else len >= 2
  }

  /** The options after the one at the front of `b`. */
  function Seen(b: seq<u8>, o: Opts): Opts
    requires |b| >= 2 && LengthOk(b[0], b[1]) && b[1] <= |b|
  {
    if b[0] == 2 then o.(mss := Some(Get16(b, 2)))
    else if b[0] == 3 then o.(wscale := Some(Min(b[2], 14)))
    else if b[0] == 4 then o.(sackPermitted := true)
    else if b[0] == 5 then o.(sack := ReadBlocks(b, 2, (b[1] - 2) / 8))
    else if b[0] == 8 then o.(ts := Some((Get32(b, 2), Get32(b, 6))))
    else o
  }

  function Parse(b: seq<u8>): Result<Opts> {
    ParseFrom(b, NONE)
  }

  /** The parsing loop. */
  method ParseLoop(b: seq<u8>) returns (r: Result<Opts>)
    ensures r == Parse(b)
  {
    var o, i := NONE, 0;
    assert b[0..] == b;
    while i < |b|
      invariant 0 <= i <= |b|
      invariant ParseFrom(b[i..], o) == Parse(b)
    {
      var rest := b[i..];
      if rest[0] == 0 {
        return Ok(o);
      } else if rest[0] == 1 {
        assert rest[1..] == b[i + 1..];
        i := i + 1;
      } else {
        if |rest| < 2 || !LengthOk(rest[0], rest[1]) || |rest| < rest[1] {
          return Err(MalformedPacket);
        }
        assert rest[rest[1]..] == b[i + rest[1]..];
        o := Seen(rest, o);
        i := i + rest[1];
      }
    }
    r := Ok(o);
  }

  // ---- Parsing undoes encoding ---------------------------------------------

  lemma {:induction false} ParseNops(n: nat, o: Opts)
    ensures ParseFrom(Nops(n), o) == Ok(o)
  {
    if n > 0 {
      assert Nops(n)[1..] == Nops(n - 1);
      ParseNops(n - 1, o);
    }
  }

  /** One option at the front, then the rest. */
  lemma ParseFront(front: seq<u8>, rest: seq<u8>, o: Opts)
    requires |front| >= 2 && front[0] >= 2 && front[1] == |front| && LengthOk(front[0], front[1])
    ensures LengthOk(front[0], front[1]) && ParseFrom(front + rest, o) == ParseFrom(rest, Seen(front + rest, o))
  {
    var b := front + rest;
    assert b[|front|..] == rest;
  }

  lemma ParseMss(o: Opts, rest: seq<u8>, x: Opts)
    ensures ParseFrom(MssBytes(o) + rest, x) == ParseFrom(rest, if o.mss.Some? then x.(mss := o.mss) else x)
  {
    if o.mss.Some? {
      var b := MssBytes(o) + rest;
      ParseFront(MssBytes(o), rest, x);
      assert b[2..4] == BE16(o.mss.value);
      Read16(b, 2, o.mss.value);
    } else {
      assert MssBytes(o) + rest == rest;
    }
  }

  lemma ParseWscale(o: Opts, rest: seq<u8>, x: Opts)
    requires Clean(o)
    ensures ParseFrom(WscaleBytes(o) + rest, x) ==
            ParseFrom(rest, if o.wscale.Some? then x.(wscale := o.wscale) else x)
  {
    if o.wscale.Some? {
      ParseFront(WscaleBytes(o), rest, x);
    } else {
      assert WscaleBytes(o) + rest == rest;
    }
  }

  lemma ParsePermitted(o: Opts, rest: seq<u8>, x: Opts)
    ensures ParseFrom(PermittedBytes(o) + rest, x) ==
            ParseFrom(rest, if o.sackPermitted then x.(sackPermitted := true) else x)
  {
    if o.sackPermitted {
      ParseFront(PermittedBytes(o), rest, x);
    } else {
      assert PermittedBytes(o) + rest == rest;
    }
  }

  lemma ParseTs(o: Opts, rest: seq<u8>, x: Opts)
    ensures ParseFrom(TsBytes(o) + rest, x) == ParseFrom(rest, if o.ts.Some? then x.(ts := o.ts) else x)
  {
    if o.ts.Some? {
      var b := TsBytes(o) + rest;
      ParseFront(TsBytes(o), rest, x);
      assert b[2..6] == BE32(o.ts.value.0) && b[6..10] == BE32(o.ts.value.1);
      Read32(b, 2, o.ts.value.0);
      Read32(b, 6, o.ts.value.1);
    } else {
      assert TsBytes(o) + rest == rest;
    }
  }

  lemma SubSlice(b: seq<u8>, at: nat, n: nat, i: nat, j: nat)
    requires i <= j <= n && at + n <= |b|
    ensures b[at..at + n][i..j] == b[at + i..at + j]
  {
    var x, y := b[at..at + n][i..j], b[at + i..at + j];
    assert |x| == |y| && forall k :: 0 <= k < |x| ==> x[k] == y[k];
  }

  lemma FirstBlock(sack: seq<(u32, u32)>)
    requires sack != []
    ensures var f := BlockBytes(sack);
            f[0..4] == BE32(sack[0].0) && f[4..8] == BE32(sack[0].1) && f[8..|f|] == BlockBytes(sack[1..])
  {
  }

  lemma {:induction false} ReadWritten(b: seq<u8>, at: nat, sack: seq<(u32, u32)>)
    requires at + 8 * |sack| <= |b| && b[at..at + 8 * |sack|] == BlockBytes(sack)
    ensures ReadBlocks(b, at, |sack|) == sack
    decreases |sack|
  {
    hide BE32, Get32;
    if sack != [] {
      var n := 8 * |sack|;
      FirstBlock(sack);
      SubSlice(b, at, n, 0, 4);
      SubSlice(b, at, n, 4, 8);
      SubSlice(b, at, n, 8, n);
      Read32(b, at, sack[0].0);
      Read32(b, at + 4, sack[0].1);
      ReadWritten(b, at + 8, sack[1..]);
    }
  }

  lemma ParseSack(o: Opts, rest: seq<u8>, x: Opts)
    requires Clean(o)
    ensures ParseFrom(SackBytes(o) + rest, x) == ParseFrom(rest, if o.sack != [] then x.(sack := o.sack) else x)
  {
    hide ParseFrom, BlockBytes, ReadBlocks, Get16, Get32;
    if o.sack != [] {
      var b := SackBytes(o) + rest;
      ParseFront(SackBytes(o), rest, x);
      assert b[2..2 + 8 * |o.sack|] == BlockBytes(o.sack);
      ReadWritten(b, 2, o.sack);
    } else {
      assert SackBytes(o) + rest == rest;
    }
  }

  /** Options come back as they were sent. */
  lemma RoundTrip(o: Opts)
    requires Clean(o)
    ensures Parse(Encode(o)) == Ok(o)
  {
    hide ParseFrom, MssBytes, WscaleBytes, PermittedBytes, TsBytes, SackBytes;
    var pad := Nops(EncodedLen(o) - RawLen(o));
    var r4 := SackBytes(o) + pad;
    var r3 := TsBytes(o) + r4;
    var r2 := PermittedBytes(o) + r3;
    var r1 := WscaleBytes(o) + r2;
    assert Encode(o) == MssBytes(o) + r1;
    ParseMss(o, r1, NONE);
    var x1 := if o.mss.Some? then NONE.(mss := o.mss) else NONE;
    ParseWscale(o, r2, x1);
    var x2 := if o.wscale.Some? then x1.(wscale := o.wscale) else x1;
    ParsePermitted(o, r3, x2);
    var x3 := if o.sackPermitted then x2.(sackPermitted := true) else x2;
    ParseTs(o, r4, x3);
    var x4 := if o.ts.Some? then x3.(ts := o.ts) else x3;
    ParseSack(o, pad, x4);
    var x5 := if o.sack != [] then x4.(sack := o.sack) else x4;
    ParseNops(|pad|, x5);
    assert x5 == o;
  }

  // ---- What parses can be sent again ---------------------------------------

  lemma SeenFits(b: seq<u8>, o: Opts)
    requires |b| >= 2 && LengthOk(b[0], b[1]) && b[1] <= |b| && Clean(o)
    ensures Clean(Seen(b, o)) && RawLen(Seen(b, o)) <= RawLen(o) + b[1]
  {
  }

  /** However options repeat, overlap or pad, what comes out takes no more room
      than the bytes it came from. */
  lemma {:induction false} ParsedFits(b: seq<u8>, o: Opts)
    requires Clean(o) && ParseFrom(b, o).Ok?
    ensures Clean(ParseFrom(b, o).value) && RawLen(ParseFrom(b, o).value) <= RawLen(o) + |b|
    decreases |b|
  {
    if b == [] || b[0] == 0 {
    } else if b[0] == 1 {
      ParsedFits(b[1..], o);
    } else {
      SeenFits(b, o);
      ParsedFits(b[b[1]..], Seen(b, o));
    }
  }
}
