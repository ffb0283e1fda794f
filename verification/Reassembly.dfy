/** The receive step as a value: in-order bytes are appended, out-of-order bytes
    are parked at their final place in the ring's free part and noted in the
    range list, and whatever becomes contiguous is committed. */
module Reassembly {
  import opened Serial
  import opened Ranges
  import opened Ring
  import Circular

  /** One direction of the byte stream: the byte at each position. */
  type Stream = int -> u8

  /** Receiver state. Positions count from `base`, where the ring's cursors start. */
  datatype Recv = Recv(base: int, buf: seq<u8>, read: int, nxt: int, ranges: seq<Range>, clock: nat) {
    /** Free space: the advertised window. */
    function Free(): int { |buf| - (nxt - read) }

    function Slot(p: int): nat
      requires base <= p
    {
      p - base
    }
  }

  /** What of an arriving segment is new: its start and bytes, cut to the window. */
  datatype Piece = Piece(at: int, data: seq<u8>)

  function Clip(r: Recv, p: int, data: seq<u8>): Piece
    requires r.nxt - r.read <= |r.buf|
  {
    var lead := if p < r.nxt then r.nxt - p else 0;
    if lead >= |data| then Piece(r.nxt, [])
    else
      var at, rest := p + lead, data[lead..];
      var room := r.nxt + r.Free() - at;
      if room <= 0 then Piece(at, []) else Piece(at, rest[..Min(|rest|, room)])
  }

  /** The receive step for a segment's clipped piece. */
  function Take(r: Recv, x: Piece, max: nat): Recv
    requires r.base <= r.read <= r.nxt && |r.buf| > 0 && r.nxt <= x.at
  {
    if x.data == [] then r
    else if x.at == r.nxt then
      var nxt1 := r.nxt + |x.data|;
      var a := Advanced(r.ranges, nxt1);
      r.(buf := Place(r.buf, r.Slot(r.nxt), x.data),
         nxt := nxt1 + Min(a.nxt - nxt1, |r.buf| - (nxt1 - r.read)),
         ranges := a.ranges)
    else
      var s, e := x.at, x.at + |x.data|;
      if Outcome(r.ranges, s, e, max).Full? then r.(clock := r.clock + 1)
      else r.(buf := Place(r.buf, r.Slot(s), x.data),
              ranges := Inserted(r.ranges, s, e, r.clock, max), clock := r.clock + 1)
  }

  function Deliver(r: Recv, p: int, data: seq<u8>, max: nat): Recv
    requires r.base <= r.read <= r.nxt <= r.read + |r.buf| && |r.buf| > 0
  {
    Take(r, Clip(r, p, data), max)
  }

  /** The application reads `k` bytes, or all there are. */
  function Reads(r: Recv, k: nat): Recv
    requires r.read <= r.nxt
  {
    r.(read := r.read + Min(k, r.nxt - r.read))
  }

  // ---- The invariant -------------------------------------------------------

  /** Received: delivered in order, or held above a hole. */
  ghost predicate Got(r: Recv, p: int) {
    r.base <= p < r.nxt || Held(r.ranges, p)
  }

  /** The stored byte for `p` is the stream's. */
  predicate Kept(r: Recv, S: Stream, p: int)
    requires r.base <= p && |r.buf| > 0
  {
    At(r.buf, r.Slot(p)) == S(p)
  }

  ghost predicate Shaped(r: Recv, max: nat) {
    && |r.buf| > 0 && r.base <= r.read <= r.nxt <= r.read + |r.buf|
    && RangesOk(r.ranges, r.nxt) && |r.ranges| <= max
    && (forall i :: 0 <= i < |r.ranges| ==> r.ranges[i].end <= r.read + |r.buf|)
  }

  /** Everything readable and everything held is the stream's, at its final slot;
      what is held fits the window. */
  ghost predicate RecvInv(r: Recv, S: Stream, max: nat) {
    && Shaped(r, max)
    && (forall p :: r.read <= p < r.nxt ==> Kept(r, S, p))
    && (forall p :: Held(r.ranges, p) ==> r.base <= p && Kept(r, S, p))
  }

  /** `data` is the stretch of the stream from `p` on. */
  ghost predicate IsSlice(S: Stream, p: int, data: seq<u8>) {
    forall k :: 0 <= k < |data| ==> data[k] == S(p + k)
  }

  lemma ClipIsSlice(r: Recv, S: Stream, p: int, data: seq<u8>)
    requires r.read <= r.nxt <= r.read + |r.buf| && IsSlice(S, p, data)
    ensures var x := Clip(r, p, data);
            && r.nxt <= x.at && IsSlice(S, x.at, x.data)
            && (x.data != [] ==> x.at + |x.data| <= r.read + |r.buf|)
  {
    var x := Clip(r, p, data);
    var lead := if p < r.nxt then r.nxt - p else 0;
    forall k | 0 <= k < |x.data| ensures x.data[k] == S(x.at + k) {
      assert data[lead + k] == S(p + (lead + k));
    }
  }

  /** Placing a slice of the stream above `nxt`, within the window, keeps every
      stream byte in the window and adds the slice's. */
  lemma PlaceKeeps(r: Recv, S: Stream, x: Piece, p: int)
    requires |r.buf| > 0 && r.base <= r.read <= r.nxt <= x.at && x.at + |x.data| <= r.read + |r.buf|
    requires IsSlice(S, x.at, x.data) && r.read <= p < r.read + |r.buf|
    requires x.at <= p < x.at + |x.data| || Kept(r, S, p)
    ensures Kept(r.(buf := Place(r.buf, r.Slot(x.at), x.data)), S, p)
  {
    if x.at <= p < x.at + |x.data| {
      PlaceIn(r.buf, r.Slot(x.at), x.data, p - x.at);
    } else if x.at <= p {
      PlaceOut(r.buf, r.Slot(x.at), x.data, r.Slot(p));
    } else {
      SameSlot(r.buf, r.Slot(p));
      SameSlot(Place(r.buf, r.Slot(x.at), x.data), r.Slot(p));
      PlaceOut(r.buf, r.Slot(x.at), x.data, r.Slot(p) + |r.buf|);
    }
  }

  lemma SameSlot(buf: seq<u8>, p: nat)
    requires |buf| > 0
    ensures At(buf, p + |buf|) == At(buf, p)
  {
    Circular.ModAdd(p, |buf|, |buf|);
  }

  lemma HeldInWindow(r: Recv, max: nat, p: int)
    requires Shaped(r, max) && Held(r.ranges, p)
    ensures r.nxt < p < r.read + |r.buf|
  {
  }

  // ---- In order ------------------------------------------------------------

  lemma InOrderShaped(r: Recv, x: Piece, max: nat)
    requires Shaped(r, max) && x.at == r.nxt && x.data != [] && x.at + |x.data| <= r.read + |r.buf|
    ensures var a := Advanced(r.ranges, r.nxt + |x.data|);
            && a.nxt <= r.read + |r.buf|
            && Take(r, x, max).nxt == a.nxt
            && Shaped(Take(r, x, max), max)
  {
    var nxt1 := r.nxt + |x.data|;
    AdvanceOk(r.ranges, r.nxt, nxt1);
    AdvanceBound(r.ranges, nxt1, r.read + |r.buf|);
  }

  lemma {:induction false} AdvanceBound(rs: seq<Range>, nxt: int, bound: int)
    requires nxt <= bound && forall i :: 0 <= i < |rs| ==> rs[i].end <= bound
    ensures var a := Advanced(rs, nxt);
            a.nxt <= bound && forall i :: 0 <= i < |a.ranges| ==> a.ranges[i].end <= bound
    decreases |rs|
  {
    if rs != [] && rs[0].start <= nxt {
      AdvanceBound(rs[1..], Max(nxt, rs[0].end), bound);
    }
  }

  lemma InOrderKeeps(r: Recv, S: Stream, x: Piece, max: nat)
    requires RecvInv(r, S, max) && x.at == r.nxt && x.data != []
    requires x.at + |x.data| <= r.read + |r.buf| && IsSlice(S, x.at, x.data)
    ensures RecvInv(Take(r, x, max), S, max)
  {
    hide RangesOk, Advanced;
    var r' := Take(r, x, max);
    var nxt1 := r.nxt + |x.data|;
    InOrderShaped(r, x, max);
    forall p | r'.read <= p < r'.nxt ensures Kept(r', S, p) {
      AdvanceHolds(r.ranges, r.nxt, nxt1, p);
      PlaceKeeps(r, S, x, p);
    }
    forall p | Held(r'.ranges, p) ensures r'.base <= p && Kept(r', S, p) {
      AdvanceHolds(r.ranges, r.nxt, nxt1, p);
      HeldInWindow(r, max, p);
      PlaceKeeps(r, S, x, p);
    }
  }

  // ---- Out of order --------------------------------------------------------

  lemma ParkShaped(r: Recv, x: Piece, max: nat)
    requires Shaped(r, max) && r.nxt < x.at && x.data != [] && x.at + |x.data| <= r.read + |r.buf|
    ensures Shaped(Take(r, x, max), max)
  {
    hide RangesOk, Inserted, Outcome, Place;
    var s, e := x.at, x.at + |x.data|;
    InsertOk(r.ranges, r.nxt, s, e, r.clock, max);
    InsertBound(r.ranges, s, e, r.clock, max, r.read + |r.buf|);
  }

  lemma ParkKeeps(r: Recv, S: Stream, x: Piece, max: nat)
    requires RecvInv(r, S, max) && r.nxt < x.at && x.data != []
    requires x.at + |x.data| <= r.read + |r.buf| && IsSlice(S, x.at, x.data)
    ensures RecvInv(Take(r, x, max), S, max)
  {
    hide RangesOk, Inserted, Outcome, Place;
    var r' := Take(r, x, max);
    var s, e := x.at, x.at + |x.data|;
    ParkShaped(r, x, max);
    if Outcome(r.ranges, s, e, max).Stored? {
      forall p | r'.read <= p < r'.nxt ensures Kept(r', S, p) {
        PlaceKeeps(r, S, x, p);
      }
      forall p | Held(r'.ranges, p) ensures r'.base <= p && Kept(r', S, p) {
        InsertHolds(r.ranges, r.nxt, s, e, r.clock, max, p);
        if Held(r.ranges, p) {
          HeldInWindow(r, max, p);
        }
        PlaceKeeps(r, S, x, p);
      }
    } else {
      assert forall p :: r.base <= p ==> (Kept(r', S, p) <==> Kept(r, S, p));
    }
  }

  // ---- Every step, every run -----------------------------------------------

  /** Any arrival of a slice of the stream keeps the invariant. */
  lemma DeliverKeeps(r: Recv, S: Stream, p: int, data: seq<u8>, max: nat)
    requires RecvInv(r, S, max) && IsSlice(S, p, data)
    ensures RecvInv(Deliver(r, p, data, max), S, max)
  {
    ClipIsSlice(r, S, p, data);
    var x := Clip(r, p, data);
    if x.data != [] {
      if x.at == r.nxt {
        InOrderKeeps(r, S, x, max);
      } else {
        ParkKeeps(r, S, x, max);
      }
    }
  }

  lemma ReadsKeeps(r: Recv, S: Stream, k: nat, max: nat)
    requires RecvInv(r, S, max)
    ensures RecvInv(Reads(r, k), S, max)
  {
    var r' := Reads(r, k);
    assert forall p :: r.base <= p ==> (Kept(r', S, p) <==> Kept(r, S, p));
  }

  /** The piece of an arrival that is taken: all of its clipped part, unless it
      would need a range of its own and none is left. */
  predicate Taken(r: Recv, x: Piece, max: nat) {
    x.data != [] && (x.at == r.nxt || Outcome(r.ranges, x.at, x.at + |x.data|, max).Stored?)
  }

  /** Exactly the taken piece is added to what was received; nothing received is
      ever given up. */
  lemma DeliverGets(r: Recv, p: int, data: seq<u8>, max: nat, q: int)
    requires Shaped(r, max)
    ensures var x := Clip(r, p, data);
            Got(Deliver(r, p, data, max), q) <==>
            Got(r, q) || (Taken(r, x, max) && x.at <= q < x.at + |x.data|)
  {
    hide RangesOk, Inserted, Outcome, Advanced;
    var x := Clip(r, p, data);
    if x.data != [] {
      if x.at == r.nxt {
        var nxt1 := r.nxt + |x.data|;
        AdvanceHolds(r.ranges, r.nxt, nxt1, q);
        AdvanceOk(r.ranges, r.nxt, nxt1);
        InOrderShaped(r, x, max);
        if Held(r.ranges, q) {
          HeldInWindow(r, max, q);
        }
      } else {
        InsertHolds(r.ranges, r.nxt, x.at, x.at + |x.data|, r.clock, max, q);
      }
    }
  }

  /** The next expected position is the first one missing. */
  lemma NextIsMissing(r: Recv, max: nat)
    requires Shaped(r, max)
    ensures !Got(r, r.nxt)
  {
  }

  /** What can be read is exactly the unread stream up to the next expected position. */
  lemma ReadableIsStream(r: Recv, S: Stream, max: nat)
    requires RecvInv(r, S, max)
    ensures IsSlice(S, r.read, Window(r.buf, r.Slot(r.read), r.nxt - r.read))
  {
    var w := Window(r.buf, r.Slot(r.read), r.nxt - r.read);
    forall k | 0 <= k < |w| ensures w[k] == S(r.read + k) {
      assert Kept(r, S, r.read + k);
    }
  }

  /** A segment that covers the next expected position moves it at least to the
      segment's end, or to the window's. */
  lemma DeliverReaches(r: Recv, p: int, data: seq<u8>, max: nat)
    requires Shaped(r, max) && p <= r.nxt <= p + |data|
    ensures Deliver(r, p, data, max).nxt >= Min(p + |data|, r.read + |r.buf|)
  {
    var x := Clip(r, p, data);
    if x.data != [] {
      InOrderShaped(r, x, max);
      AdvanceOk(r.ranges, r.nxt, r.nxt + |x.data|);
    }
  }

  lemma NextGrows(r: Recv, p: int, data: seq<u8>, max: nat)
    requires Shaped(r, max)
    ensures var r' := Deliver(r, p, data, max);
            r.nxt <= r'.nxt && r'.base == r.base && r'.read == r.read && |r'.buf| == |r.buf|
  {
    var x := Clip(r, p, data);
    if x.data != [] && x.at == r.nxt {
      AdvanceOk(r.ranges, r.nxt, r.nxt + |x.data|);
      InOrderShaped(r, x, max);
    }
  }

  // ---- Runs ----------------------------------------------------------------

  datatype Event = Arrive(p: int, data: seq<u8>) | Read(k: nat)

  /** The receiver and everything the application has read so far. */
  datatype Session = Session(recv: Recv, out: seq<u8>)

  function Fresh(base: int, buf: seq<u8>): Session {
    Session(Recv(base, buf, base, base, [], 1), [])
  }

  ghost predicate SessionInv(x: Session, S: Stream, max: nat) {
    && RecvInv(x.recv, S, max)
    && |x.out| == x.recv.read - x.recv.base && IsSlice(S, x.recv.base, x.out)
  }

  function Happen(x: Session, e: Event, max: nat): Session
    requires Shaped(x.recv, max)
  {
    match e
    case Arrive(p, data) => x.(recv := Deliver(x.recv, p, data, max))
    case Read(k) =>
      var r := x.recv;
      Session(Reads(r, k), x.out + Window(r.buf, r.Slot(r.read), Min(k, r.nxt - r.read)))
  }

  lemma HappenKeeps(x: Session, e: Event, S: Stream, max: nat)
    requires SessionInv(x, S, max) && (e.Arrive? ==> IsSlice(S, e.p, e.data))
    ensures SessionInv(Happen(x, e, max), S, max)
  {
    match e
    case Arrive(p, data) =>
      DeliverKeeps(x.recv, S, p, data, max);
    case Read(k) =>
      var r := x.recv;
      ReadsKeeps(r, S, k, max);
      var w := Window(r.buf, r.Slot(r.read), Min(k, r.nxt - r.read));
      forall i | 0 <= i < |w| ensures w[i] == S(r.read + i) {
        assert Kept(r, S, r.read + i);
      }
  }

  ghost predicate AllSlices(es: seq<Event>, S: Stream) {
    forall i :: 0 <= i < |es| && es[i].Arrive? ==> IsSlice(S, es[i].p, es[i].data)
  }

  /** After any arrivals of slices of one stream, in any order, overlapping or
      repeated, interleaved with any reads: the application has read exactly a
      prefix of the stream, and the receiver invariant holds. */
  ghost function After(base: int, buf: seq<u8>, es: seq<Event>, S: Stream, max: nat): (x: Session)
    requires |buf| > 0 && AllSlices(es, S)
    ensures SessionInv(x, S, max) && x.recv.base == base && |x.recv.buf| == |buf|
  {
    if es == [] then Fresh(base, buf)
    else
      var x, e := After(base, buf, es[..|es| - 1], S, max), es[|es| - 1];
      HappenKeeps(x, e, S, max);
      if e.Arrive? then
        NextGrows(x.recv, e.p, e.data, max);
        Happen(x, e, max)
      else Happen(x, e, max)
  }

  lemma AfterOne(base: int, buf: seq<u8>, es: seq<Event>, e: Event, S: Stream, max: nat)
    requires |buf| > 0 && AllSlices(es, S) && (e.Arrive? ==> IsSlice(S, e.p, e.data))
    ensures AllSlices(es + [e], S)
    ensures After(base, buf, es + [e], S, max) == Happen(After(base, buf, es, S, max), e, max)
  {
    assert (es + [e])[..|es|] == es;
  }

  // ---- Completion ----------------------------------------------------------

  /** Arrival `i` of the run was taken and brought position `p`. */
  ghost predicate Brought(base: int, buf: seq<u8>, es: seq<Event>, S: Stream, max: nat, i: nat, p: int)
    requires |buf| > 0 && AllSlices(es, S) && i < |es|
  {
    es[i].Arrive? &&
    var r := After(base, buf, es[..i], S, max).recv;
    var x := Clip(r, es[i].p, es[i].data);
    Taken(r, x, max) && x.at <= p < x.at + |x.data|
  }

  /** Some arrival of the run did. */
  ghost predicate Came(base: int, buf: seq<u8>, es: seq<Event>, S: Stream, max: nat, p: int)
    requires |buf| > 0 && AllSlices(es, S)
  {
    exists i :: 0 <= i < |es| && Brought(base, buf, es, S, max, i, p)
  }

  lemma CameStep(base: int, buf: seq<u8>, es: seq<Event>, S: Stream, max: nat, p: int)
    requires |buf| > 0 && es != [] && AllSlices(es, S)
    ensures var n := |es| - 1;
            Came(base, buf, es, S, max, p) <==>
            Came(base, buf, es[..n], S, max, p) || Brought(base, buf, es, S, max, n, p)
  {
    hide After, Clip, Taken;
    var init := es[..|es| - 1];
    forall i | 0 <= i < |init|
      ensures Brought(base, buf, es, S, max, i, p) <==> Brought(base, buf, init, S, max, i, p)
    {
      assert es[..i] == init[..i];
    }
  }

  /** What has been received is exactly what the taken arrivals brought. */
  lemma {:induction false} GotIff(base: int, buf: seq<u8>, es: seq<Event>, S: Stream, max: nat, p: int)
    requires |buf| > 0 && AllSlices(es, S)
    ensures Got(After(base, buf, es, S, max).recv, p) <==> Came(base, buf, es, S, max, p)
  {
    if es != [] {
      hide After, Brought, Came, Got;
      GotIff(base, buf, es[..|es| - 1], S, max, p);
      GotOne(base, buf, es, S, max, p);
      CameStep(base, buf, es, S, max, p);
    }
  }

  lemma GotOne(base: int, buf: seq<u8>, es: seq<Event>, S: Stream, max: nat, p: int)
    requires |buf| > 0 && es != [] && AllSlices(es, S)
    ensures var n := |es| - 1;
            Got(After(base, buf, es, S, max).recv, p) <==>
            Got(After(base, buf, es[..n], S, max).recv, p) || Brought(base, buf, es, S, max, n, p)
  {
    hide Deliver, Clip, Taken, Shaped, Kept;
    var n := |es| - 1;
    var x, e := After(base, buf, es[..n], S, max), es[n];
    if e.Arrive? {
      DeliverGets(x.recv, e.p, e.data, max, p);
    }
  }

  /** No arrival reaches beyond `end`. */
  predicate UpTo(es: seq<Event>, end: int) {
    forall i :: 0 <= i < |es| && es[i].Arrive? ==> es[i].p + |es[i].data| <= end
  }

  lemma GotUpTo(base: int, buf: seq<u8>, es: seq<Event>, S: Stream, max: nat, end: int, p: int)
    requires |buf| > 0 && AllSlices(es, S) && UpTo(es, end) && Got(After(base, buf, es, S, max).recv, p)
    ensures p < end
  {
    hide After, Got;
    GotIff(base, buf, es, S, max, p);
    var i :| 0 <= i < |es| && Brought(base, buf, es, S, max, i, p);
    ClipWithin(After(base, buf, es[..i], S, max).recv, es[i].p, es[i].data);
  }

  lemma ClipWithin(r: Recv, p: int, data: seq<u8>)
    requires r.nxt - r.read <= |r.buf|
    ensures var x := Clip(r, p, data); x.data != [] ==> x.at + |x.data| <= p + |data|
  {
  }

  /** All of the stream up to `end` is out or readable, and nothing waits. */
  ghost predicate Complete(x: Session, S: Stream, end: int) {
    var r := x.recv;
    && |r.buf| > 0 && r.base <= r.read <= r.nxt == end && r.ranges == []
    && var all := x.out + Window(r.buf, r.Slot(r.read), r.nxt - r.read);
       |all| == end - r.base && IsSlice(S, r.base, all)
  }

  lemma ReachedIsComplete(x: Session, S: Stream, max: nat, end: int)
    requires SessionInv(x, S, max) && end <= x.recv.nxt && x.recv.base <= end
    requires forall p :: Got(x.recv, p) ==> p < end
    ensures Complete(x, S, end)
  {
    var r := x.recv;
    if r.base < r.nxt {
      assert Got(r, r.nxt - 1);
    }
    if r.ranges != [] {
      assert Contains(r.ranges[0], r.ranges[0].start);
      assert Got(r, r.ranges[0].start);
    }
    ReadableIsStream(r, S, max);
  }

  /** Of any run none of whose arrivals reaches beyond `end`: the whole stream up to
      `end` comes out, with nothing left waiting, exactly when the taken arrivals
      brought every position of it. */
  lemma CompleteIff(base: int, buf: seq<u8>, es: seq<Event>, S: Stream, max: nat, end: int)
    requires |buf| > 0 && AllSlices(es, S) && UpTo(es, end) && base <= end
    ensures Complete(After(base, buf, es, S, max), S, end) <==>
            forall p :: base <= p < end ==> Came(base, buf, es, S, max, p)
  {
    hide After, Came, Got, SessionInv, Complete;
    var x := After(base, buf, es, S, max);
    if Complete(x, S, end) {
      forall p | base <= p < end
        ensures Came(base, buf, es, S, max, p)
      {
        CompleteHasAll(x, S, end, p);
        GotIff(base, buf, es, S, max, p);
      }
    }
    if forall p :: base <= p < end ==> Came(base, buf, es, S, max, p) {
      forall p ensures (base <= p < end ==> Got(x.recv, p)) && (Got(x.recv, p) ==> p < end) {
        GotIff(base, buf, es, S, max, p);
        if Got(x.recv, p) {
          GotUpTo(base, buf, es, S, max, end, p);
        }
      }
      AllGotReaches(x, S, max, end);
      ReachedIsComplete(x, S, max, end);
    }
  }

  lemma CompleteHasAll(x: Session, S: Stream, end: int, p: int)
    requires Complete(x, S, end) && x.recv.base <= p < end
    ensures Got(x.recv, p)
  {
  }

  lemma AllGotReaches(x: Session, S: Stream, max: nat, end: int)
    requires SessionInv(x, S, max) && forall p :: x.recv.base <= p < end ==> Got(x.recv, p)
    ensures end <= x.recv.nxt
  {
    NextIsMissing(x.recv, max);
  }

  // ---- Filling the holes in order ------------------------------------------

  function Sum(lens: seq<nat>): nat {
    if lens == [] then 0 else lens[0] + Sum(lens[1..])
  }

  /** The stream from `p` on, resent in order in pieces of the given lengths. */
  function InOrder(p: int, lens: seq<nat>, S: Stream): (es: seq<Event>)
    ensures |es| == |lens|
    decreases |lens|
  {
    if lens == [] then []
    else [Arrive(p, seq<u8>(lens[0], k requires 0 <= k < lens[0] => S(p + k)))] + InOrder(p + lens[0], lens[1..], S)
  }

  lemma {:induction false} InOrderFits(p: int, lens: seq<nat>, S: Stream)
    ensures AllSlices(InOrder(p, lens, S), S) && UpTo(InOrder(p, lens, S), p + Sum(lens))
    decreases |lens|
  {
    if lens != [] {
      var rest := InOrder(p + lens[0], lens[1..], S);
      InOrderFits(p + lens[0], lens[1..], S);
      var es := InOrder(p, lens, S);
      assert forall i :: 0 < i < |es| ==> es[i] == rest[i - 1];
    }
  }

  /** A pass from at or below the next expected position reaches its own end. */
  lemma {:induction false} PassReaches(base: int, buf: seq<u8>, es: seq<Event>, p: int, lens: seq<nat>, S: Stream, max: nat)
    requires |buf| > 0 && AllSlices(es, S)
    requires var r := After(base, buf, es, S, max).recv;
             p <= r.nxt && p + Sum(lens) <= r.read + |buf|
    ensures AllSlices(es + InOrder(p, lens, S), S)
    ensures After(base, buf, es + InOrder(p, lens, S), S, max).recv.nxt >= p + Sum(lens)
    decreases |lens|
  {
    hide After, Happen, SessionInv, AllSlices, IsSlice;
    var pass := InOrder(p, lens, S);
    if lens == [] {
      assert es + pass == es;
    } else {
      hide InOrder;
      var x, e, rest := After(base, buf, es, S, max), pass[0], InOrder(p + lens[0], lens[1..], S);
      FirstPiece(p, lens, S);
      Regrouped(es, e, rest);
      AfterOne(base, buf, es, e, S, max);
      PieceReaches(x, S, e, max);
      PassReaches(base, buf, es + [e], p + lens[0], lens[1..], S, max);
    }
  }

  lemma Regrouped(es: seq<Event>, e: Event, rest: seq<Event>)
    ensures es + ([e] + rest) == es + [e] + rest
  {
  }

  lemma FirstPiece(p: int, lens: seq<nat>, S: Stream)
    requires lens != []
    ensures var pass := InOrder(p, lens, S);
            && pass == [pass[0]] + InOrder(p + lens[0], lens[1..], S)
            && pass[0].Arrive? && pass[0].p == p && |pass[0].data| == lens[0] && IsSlice(S, p, pass[0].data)
  {
  }

  lemma PieceReaches(x: Session, S: Stream, e: Event, max: nat)
    requires SessionInv(x, S, max) && e.Arrive? && e.p <= x.recv.nxt
    requires e.p + |e.data| <= x.recv.read + |x.recv.buf|
    ensures var r := Happen(x, e, max).recv;
            e.p + |e.data| <= r.nxt && r.read == x.recv.read && x.recv.nxt <= r.nxt
  {
    hide Deliver;
    NextGrows(x.recv, e.p, e.data, max);
    if x.recv.nxt <= e.p + |e.data| {
      DeliverReaches(x.recv, e.p, e.data, max);
    }
  }

  /** After any history that stays below `end`, however much of it was dropped, sending
      the stream once more in order, from at or below the next expected position to an
      `end` the window can hold, completes it. */
  lemma RepairCompletes(base: int, buf: seq<u8>, es: seq<Event>, p: int, lens: seq<nat>, S: Stream, max: nat)
    requires |buf| > 0 && AllSlices(es, S) && UpTo(es, p + Sum(lens)) && base <= p
    requires var r := After(base, buf, es, S, max).recv;
             p <= r.nxt && p + Sum(lens) <= r.read + |buf|
    ensures AllSlices(es + InOrder(p, lens, S), S)
    ensures Complete(After(base, buf, es + InOrder(p, lens, S), S, max), S, p + Sum(lens))
  {
    hide After, SessionInv, Complete, Got;
    var end, all := p + Sum(lens), es + InOrder(p, lens, S);
    InOrderFits(p, lens, S);
    PassReaches(base, buf, es, p, lens, S, max);
    var x := After(base, buf, all, S, max);
    forall q | Got(x.recv, q) ensures q < end {
      GotUpTo(base, buf, all, S, max, end, q);
    }
    ReachedIsComplete(x, S, max, end);
  }
}
