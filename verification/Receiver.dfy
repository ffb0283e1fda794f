/** The receive step as the stack performs it, on the ring and the range list in
    place, with 32-bit sequence numbers. */
module Receiver {
  import opened Serial
  import opened Ranges
  import Ring
  import OooList
  import opened Reassembly

  /** Appending, in the terms of the in-place steps; the commit is never clipped. */
  lemma AppendIs(r: Recv, piece: seq<u8>, max: nat)
    requires Shaped(r, max) && |piece| <= r.Free()
    ensures var a := Advanced(r.ranges, r.nxt + |piece|);
            var r' := Reassembly.Take(r, Piece(r.nxt, piece), max);
            && r.nxt + |piece| <= a.nxt <= r.read + |r.buf|
            && r' == r.(buf := Ring.Place(r.buf, r.Slot(r.nxt), piece), nxt := a.nxt, ranges := a.ranges)
            && Shaped(r', max) && (piece == [] ==> r' == r)
  {
    hide RangesOk, Advanced, Ring.Place;
    AdvanceOk(r.ranges, r.nxt, r.nxt + |piece|);
    if piece == [] {
      AppendNothing(r, max);
    } else {
      InOrderShaped(r, Piece(r.nxt, piece), max);
    }
  }

  lemma AppendNothing(r: Recv, max: nat)
    requires Shaped(r, max)
    ensures Advanced(r.ranges, r.nxt) == Advance(r.ranges, r.nxt)
    ensures Ring.Place(r.buf, r.Slot(r.nxt), []) == r.buf
  {
  }

  /** Parking, in the terms of the in-place steps. */
  lemma ParkIs(r: Recv, at: int, piece: seq<u8>, max: nat)
    requires Shaped(r, max) && r.nxt < at && at + |piece| <= r.read + |r.buf|
    ensures var r' := Reassembly.Take(r, Piece(at, piece), max);
            && Shaped(r', max)
            && (piece == [] ==> r' == r)
            && (piece != [] ==>
                  var s, e := at, at + |piece|;
                  if Outcome(r.ranges, s, e, max).Full?
                  then r' == r.(clock := r.clock + 1) && Inserted(r.ranges, s, e, r.clock, max) == r.ranges
                  else r' == r.(buf := Ring.Place(r.buf, r.Slot(s), piece), clock := r.clock + 1,
                                ranges := Inserted(r.ranges, s, e, r.clock, max)))
  {
    hide RangesOk, LowIndex, HighIndex, Ring.Place;
    if piece != [] {
      ParkShaped(r, Piece(at, piece), max);
    }
  }

  class Receiver {
    const ring: Ring.Buffer
    const ooo: OooList.List
    var rcvNxt: u32

    ghost const base: int
    ghost var nxt: int

    ghost function View(): Recv
      reads this, ring, ring.buf, ooo
    {
      Recv(base, ring.buf[..], base + ring.read, nxt, ooo.rs, ooo.clock)
    }

    ghost predicate Valid()
      reads this, ring, ring.buf, ooo, ooo.ranges
    {
      && ring.Valid() && ring.n <= MAX_SPAN
      && ooo.Valid(nxt)
      && rcvNxt == Wire(nxt) && nxt == base + ring.read + ring.len
      && Shaped(View(), ooo.max)
    }

    constructor (n: nat, ghost turns: nat, max: nat, irs: u32)
      requires 0 < n <= MAX_SPAN && turns > 0 && n * turns == Ring.USIZE
      ensures Valid() && fresh(ring) && fresh(ring.buf) && fresh(ooo) && fresh(ooo.ranges)
      ensures View() == Fresh(irs, ring.buf[..]).recv && ooo.max == max
    {
      ring := new Ring.Buffer(n, turns);
      ooo := new OooList.List(max, irs);
      rcvNxt, base, nxt := irs, irs, irs;
    }

    /** The receive step for the segment `data` at sequence number `seqNo`, less
        than 2^31 away from the next expected one. */
    method Deliver(seqNo: u32, data: seq<u8>, ghost p: int)
      requires Valid() && seqNo == Wire(p) && -HALF < p - nxt < HALF
      modifies this, ring, ring.buf, ooo, ooo.ranges
      ensures Valid() && View() == Reassembly.Deliver(old(View()), p, data, ooo.max)
    {
      hide OooList.List.Valid, Ring.Buffer.Valid, Shaped, Reassembly.Take;
      var s, rest := seqNo, data;
      ghost var at := p;
      SerialOrder(p, nxt);
      if SeqLt(seqNo, rcvNxt) {
        SerialDistance(nxt, p);
        var lead := WSub(rcvNxt, s);
        if lead >= |rest| {
          EmptyPiece(p, data);
          return;
        }
        rest, s, at := rest[lead..], rcvNxt, nxt;
      }
      SerialDistance(at, nxt);
      var o := WSub(s, rcvNxt);
      FreeIs();
      var free := ring.n - ring.len;
      if o >= free {
        EmptyPiece(p, data);
        return;
      }
      var piece := rest[..Min(|rest|, free - o)];
      PieceIs(p, data, at, piece);
      if piece == [] {
        EmptyPiece(p, data);
      }
      if o == 0 {
        Append(piece);
      } else {
        Park(o, s, piece, at);
      }
    }

    /** The window is the ring's free part. */
    lemma FreeIs()
      requires Valid()
      ensures View().Free() == ring.n - ring.len >= 0
    {
    }

    lemma EmptyPiece(p: int, data: seq<u8>)
      requires Valid() && Clip(View(), p, data).data == []
      ensures Reassembly.Deliver(View(), p, data, ooo.max) == View()
    {
    }

    lemma PieceIs(p: int, data: seq<u8>, at: int, piece: seq<u8>)
      requires Valid() && at == (if p < nxt then nxt else p) && at - nxt < ring.n - ring.len
      requires p < nxt ==> nxt - p < |data|
      requires var rest := if p < nxt then data[nxt - p..] else data;
               piece == rest[..Min(|rest|, ring.n - ring.len - (at - nxt))]
      ensures Clip(View(), p, data) == Piece(if piece == [] && data == [] then nxt else at, piece)
      ensures at + |piece| <= View().read + |View().buf|
    {
    }

    /** In order: append, then absorb what the range list now reaches. */
    method Append(piece: seq<u8>)
      requires Valid() && |piece| <= ring.n - ring.len
      modifies this, ring, ring.buf, ooo, ooo.ranges
      ensures Valid() && (piece == [] ==> View() == old(View()))
      ensures View() == Reassembly.Take(old(View()), Piece(old(nxt), piece), ooo.max)
    {
      hide OooList.List.Valid, Shaped, Reassembly.Take, Advanced, Ring.Place, WSub, WAdd, Wire;
      ghost var was := View();
      ghost var nxt1 := nxt + |piece|;
      AppendIs(was, piece, ooo.max);
      var k := ring.Write(piece);
      assert piece[..k] == piece;
      WireAdd(nxt, k);
      rcvNxt := WAdd(rcvNxt, k);
      var reached := ooo.Advance(rcvNxt, nxt, nxt1);
      ghost var a := Advanced(was.ranges, nxt1);
      SerialDistance(a.nxt, nxt1);
      var c := ring.Commit(WSub(reached, rcvNxt));
      WireAdd(nxt1, c);
      rcvNxt := WAdd(rcvNxt, c);
      nxt := a.nxt;
    }

    /** Out of order: note the range, and park the bytes if it was stored. */
    method Park(o: u32, s: u32, piece: seq<u8>, ghost at: int)
      requires Valid() && s == Wire(at) && o == at - nxt && 0 < o && o + |piece| <= ring.n - ring.len
      modifies this, ring, ring.buf, ooo, ooo.ranges
      ensures Valid() && (piece == [] ==> View() == old(View()))
      ensures View() == Reassembly.Take(old(View()), Piece(at, piece), ooo.max)
    {
      hide OooList.List.Valid, Shaped, Reassembly.Take, Inserted, Outcome, Ring.Place, WSub, WAdd, Wire;
      ghost var was := View();
      ParkIs(was, at, piece, ooo.max);
      WireAdd(at, |piece|);
      SerialDistance(at, nxt);
      SerialDistance(at + |piece|, nxt);
      var out := ooo.Insert(s, WAdd(s, |piece|), rcvNxt, nxt);
      if out.Stored? {
        var k := ring.WriteAt(o, piece);
        assert piece[..|piece|] == piece;
      }
    }

    /** The application reads up to `want` bytes. */
    method Read(want: nat) returns (out: seq<u8>)
      requires Valid()
      modifies ring`head, ring`len, ring`read
      ensures Valid() && View() == Reads(old(View()), want)
      ensures out == Ring.Window(old(ring.buf[..]), old(ring.read), Min(want, old(View().nxt - View().read)))
    {
      out := ring.Read(want);
    }
  }
}
