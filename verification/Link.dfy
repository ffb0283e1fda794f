/** The two ends as stored, with 32-bit numbers on the network between them: each
    event does to the queue, the ring and the range list what it does to the system
    of values, so what is proved of that system holds of them. */
module Link {
  import opened Serial
  import opened Scoreboard
  import opened QueueRuns
  import opened RtxQueue
  import Ranges
  import opened Recency
  import OooList
  import Ring
  import opened Receiver
  import P = Protocol
  import A = AckEffects
  import R = Reassembly

  /** A segment and an acknowledgement as they travel. */
  datatype Packet = Packet(seqNo: u32, data: seq<u8>)

  datatype AckPacket = AckPacket(ack: u32, blocks: seq<(u32, u32)>)

  predicate IsPacket(x: Packet, m: P.Segment) {
    x.seqNo == Wire(m.p) && x.data == m.data
  }

  predicate IsAck(x: AckPacket, m: P.AckMsg) {
    && x.ack == Wire(m.ack) && |x.blocks| == |m.blocks|
    && forall i :: 0 <= i < |m.blocks| ==> x.blocks[i] == (Wire(m.blocks[i].0), Wire(m.blocks[i].1))
  }

  /** The first block reports a duplicate: it lies below the ACK or within the second. */
  predicate IsDsack(x: AckPacket) {
    x.blocks != [] &&
    var b := x.blocks[0];
    || SeqLe(b.1, x.ack)
    || (|x.blocks| > 1 && SeqLe(x.blocks[1].0, b.0) && SeqLe(b.1, x.blocks[1].1))
  }

  /** The blocks to SACK: all but a reported duplicate. */
  function News(x: AckPacket): seq<(u32, u32)> {
    if IsDsack(x) then x.blocks[1..] else x.blocks
  }

  /** Blocks above the ACK and apart report no duplicate. */
  lemma NotDsack(x: AckPacket, m: P.AckMsg, una: int, nxt: int)
    requires IsAck(x, m) && una <= m.ack && nxt - una <= MAX_SPAN && Apart(m.blocks)
    requires forall i :: 0 <= i < |m.blocks| ==> m.ack < m.blocks[i].0 < m.blocks[i].1 <= nxt
    ensures !IsDsack(x) && News(x) == x.blocks
  {
    hide Wire, SeqLe;
    if m.blocks != [] {
      var b := m.blocks[0];
      SerialOrder(b.1, m.ack);
      if |m.blocks| > 1 {
        var c := m.blocks[1];
        SerialOrder(c.0, b.0);
        SerialOrder(b.1, c.1);
      }
    }
  }

  lemma SpansNear(q: seq<Rec>, una: int, nxt: int, p: int)
    requires P.Spans(q, una, nxt) && una <= p <= nxt
    ensures Near(q, p)
  {
  }

  /** What the sender's tests make of an acknowledgement of a safe system. */
  lemma AckFacts(s: P.System, k: nat, x: AckPacket, S: R.Stream, cap: nat, max: nat)
    requires P.Safe(s, S, cap, max) && P.Enabled(s, P.AckArrives(k), cap) && IsAck(x, s.acks[k])
    ensures var m := s.acks[k];
            && (SeqGt(x.ack, Wire(s.nxt)) || SeqLt(x.ack, Wire(s.una)) <==> m.ack < s.una)
            && x.ack == Wire(m.ack) && m.ack <= s.nxt
            && P.Spans(s.board.recs, s.una, s.nxt) && s.nxt - s.una <= MAX_SPAN
            && (s.una <= m.ack ==>
                  && News(x) == x.blocks && |x.blocks| == |m.blocks|
                  && forall i :: 0 <= i < |m.blocks| ==>
                       && x.blocks[i] == (Wire(m.blocks[i].0), Wire(m.blocks[i].1))
                       && s.una < m.blocks[i].0 < m.blocks[i].1 <= s.nxt)
  {
    hide P.Safe, Wire, SeqLt, SeqGt, News, IsDsack;
    var m := s.acks[k];
    P.SafeBounds(s, S, cap, max);
    P.AckWithin(s, k, S, cap, max);
    SerialOrder(m.ack, s.una);
    if s.una <= m.ack {
      SerialOrder(m.ack, s.nxt);
      NotDsack(x, m, s.una, s.nxt);
    } else {
      SerialOrder(s.una, m.ack);
    }
  }

  class Link {
    const queue: Queue
    const receiver: Receiver
    var sndUna: u32
    var sndNxt: u32

    /** Everything ever put on the network, and what the application has read. */
    var packets: seq<Packet>
    var acks: seq<AckPacket>
    var read: seq<u8>

    ghost const stream: R.Stream
    ghost var sys: P.System

    ghost predicate Disjoint()
      reads this
    {
      && {queue, queue.segs, queue.words} !! {receiver, receiver.ring, receiver.ring.buf, receiver.ooo, receiver.ooo.ranges}
      && this !in {queue, queue.segs, queue.words}
      && this !in {receiver, receiver.ring, receiver.ring.buf, receiver.ooo, receiver.ooo.ranges}
    }

    ghost predicate SenderIs()
      reads this, queue, queue.segs, queue.words
    {
      && queue.Valid() && queue.View() == sys.board
      && sndUna == Wire(sys.una) && sndNxt == Wire(sys.nxt)
    }

    ghost predicate ReceiverIs()
      reads this, receiver, receiver.ring, receiver.ring.buf, receiver.ooo, receiver.ooo.ranges
    {
      receiver.Valid() && receiver.View() == sys.peer.recv && read == sys.peer.out
    }

    ghost predicate NetworkIs()
      reads this
    {
      && |packets| == |sys.data| && |acks| == |sys.acks|
      && (forall i :: 0 <= i < |packets| ==> IsPacket(packets[i], sys.data[i]))
      && (forall i :: 0 <= i < |acks| ==> IsAck(acks[i], sys.acks[i]))
    }

    ghost predicate Safe()
      reads this, queue, receiver, receiver.ooo
    {
      P.Safe(sys, stream, queue.cap, receiver.ooo.max)
    }

    ghost predicate Valid()
      reads this, queue, queue.segs, queue.words
      reads receiver, receiver.ring, receiver.ring.buf, receiver.ooo, receiver.ooo.ranges
    {
      Disjoint() && SenderIs() && ReceiverIs() && NetworkIs() && Safe()
    }

    ghost function After(e: P.Event): P.System
      requires Safe() && P.Enabled(sys, e, queue.cap)
      reads this, queue, receiver, receiver.ooo
    {
      P.Step(sys, e, stream, queue.cap, receiver.ooo.max)
    }

    /** Two fresh ends. */
    constructor (queue: Queue, receiver: Receiver, isn: u32, ghost stream: R.Stream)
      requires queue.Valid() && queue.View() == Board([], 0)
      requires receiver.Valid() && receiver.View() == R.Fresh(isn, receiver.ring.buf[..]).recv
      requires {queue, queue.segs, queue.words} !!
               {receiver, receiver.ring, receiver.ring.buf, receiver.ooo, receiver.ooo.ranges}
      ensures Valid() && this.queue == queue && this.receiver == receiver && this.stream == stream
      ensures sys == P.Start(isn, receiver.ring.buf[..])
    {
      this.queue, this.receiver, this.stream := queue, receiver, stream;
      sndUna, sndNxt, packets, acks, read := isn, isn, [], [], [];
      sys := P.Start(isn, receiver.ring.buf[..]);
      new;
      hide P.Safe, Queue.Valid, R.Shaped;
      P.StartSafe(isn, receiver.ring.buf[..], stream, queue.cap, receiver.ooo.max);
    }

    /** New data: `payload` is the stream's next. */
    method Send(now: u64, payload: seq<u8>)
      requires Valid() && P.Enabled(sys, P.Send(|payload|, now), queue.cap)
      requires R.IsSlice(stream, sys.nxt, payload)
      modifies this`packets, this`sndNxt, this`sys, queue, queue.segs, queue.words
      ensures Valid() && sys == old(After(P.Send(|payload|, now)))
    {
      hide P.Safe, Queue.Valid, Receiver.Valid, Wire, WAdd, IsAck, Inv, R.IsSlice;
      ghost var e := P.Send(|payload|, now);
      ghost var end := sys.nxt + |payload|;
      P.SafeBounds(sys, stream, queue.cap, receiver.ooo.max);
      P.StepSafe(sys, e, stream, queue.cap, receiver.ooo.max);
      SliceIs(stream, sys.nxt, payload);
      WireAdd(sys.nxt, |payload|);
      var seg := Seg(sndNxt, WAdd(sndNxt, |payload|), now, 0, Flags(false, false, false, false, false, false), 0);
      ghost var next := After(e);
      var ok := queue.Push(seg, sys.nxt, end);
      packets, sndNxt := packets + [Packet(sndNxt, payload)], WAdd(sndNxt, |payload|);
      sys := next;
    }

    /** Resend record `i`, or its first `sent` bytes: `payload` is the stream's there. */
    method Resend(i: nat, now: u64, sent: u16, payload: seq<u8>)
      requires Valid() && P.Enabled(sys, P.Resend(i, now, sent), queue.cap)
      requires R.IsSlice(stream, sys.board.recs[i].start, payload)
      requires |payload| == if sent > 0 then sent as int else sys.board.recs[i].Len()
      modifies this`packets, this`sys, queue, queue.segs, queue.words
      ensures Valid() && sys == old(After(P.Resend(i, now, sent)))
    {
      hide P.Safe, Queue.Core, CountsAre, HintOk, Receiver.Valid, Wire, IsAck, R.IsSlice;
      ghost var e := P.Resend(i, now, sent);
      P.StepSafe(sys, e, stream, queue.cap, receiver.ooo.max);
      SliceIs(stream, sys.board.recs[i].start, payload);
      ghost var next := After(e);
      var seg := queue.Get(i);
      queue.Retransmitted(i, now, sent);
      packets := packets + [Packet(seg.value.start, payload)];
      sys := next;
    }

    /** An operation the sender does on its own account; `at` is where to split. */
    method Own(op: Op, at: u32)
      requires Valid() && P.Enabled(sys, P.Local(op), queue.cap) && (op.Split? ==> at == Wire(op.at))
      modifies this`sys, queue, queue.segs, queue.words
      ensures Valid() && sys == old(After(P.Local(op)))
    {
      hide P.Safe, Queue.Valid, Receiver.Valid, Wire, IsAck, Inv, QueueRuns.Step;
      P.SafeBounds(sys, stream, queue.cap, receiver.ooo.max);
      P.StepSafe(sys, P.Local(op), stream, queue.cap, receiver.ooo.max);
      ghost var next := After(P.Local(op));
      match op {
        case Split(i, p) =>
          SpansNear(queue.recs, sys.una, sys.nxt, p);
          var ok := queue.Split(i, at, p);
        case MarkLost(i) => queue.MarkLost(i);
        case MarkAllLost => queue.MarkAllLost();
        case UnmarkLost => queue.UnmarkLost();
        case ClearSacked => queue.ClearSacked();
      }
      sys := next;
    }

    /** An acknowledgement arrives: one outside what is outstanding is ignored, else
        its blocks, but for one that reports a duplicate, are SACKED and the data up to
        it taken off the queue. */
    method OnAck(k: nat)
      requires Valid() && P.Enabled(sys, P.AckArrives(k), queue.cap)
      modifies this`sys, this`sndUna, queue, queue.segs, queue.words
      ensures Valid() && sys == old(After(P.AckArrives(k)))
      ensures A.Heard(old(sys), k, old(queue.recs), queue.recs, queue.cap)
    {
      hide P.Safe, Queue.Valid, Receiver.Valid, Wire, Inv, SeqLt, SeqGt, P.Blocks, QueueRuns.Step, A.Heard, News, IsAck;
      A.AckHeeded(sys, k, stream, queue.cap, receiver.ooo.max);
      P.StepSafe(sys, P.AckArrives(k), stream, queue.cap, receiver.ooo.max);
      ghost var next, m := After(P.AckArrives(k)), sys.acks[k];
      var x := acks[k];
      AckFacts(sys, k, x, stream, queue.cap, receiver.ooo.max);
      if SeqGt(x.ack, sndNxt) || SeqLt(x.ack, sndUna) {
        return;
      }
      Absorb(queue, News(x), m.blocks, sys.una, sys.nxt);
      SpansNear(queue.recs, sys.una, sys.nxt, m.ack);
      var removed, hits := queue.AckTo(x.ack, m.ack);
      sndUna := x.ack;
      sys := next;
    }

    /** A segment arrives. */
    method OnData(k: nat)
      requires Valid() && P.Enabled(sys, P.DataArrives(k), queue.cap)
      modifies this`sys, receiver, receiver.ring, receiver.ring.buf, receiver.ooo, receiver.ooo.ranges
      ensures Valid() && sys == old(After(P.DataArrives(k)))
    {
      hide P.Safe, Queue.Valid, Receiver.Valid, Wire, IsAck, R.Deliver;
      ghost var e := P.DataArrives(k);
      P.SafeBounds(sys, stream, queue.cap, receiver.ooo.max);
      P.SegmentWithin(sys, k, stream, queue.cap, receiver.ooo.max);
      P.StepSafe(sys, e, stream, queue.cap, receiver.ooo.max);
      ghost var next := After(e);
      receiver.Deliver(packets[k].seqNo, packets[k].data, sys.data[k].p);
      sys := next;
    }

    /** The application reads. */
    method OnRead(want: nat)
      requires Valid()
      modifies this`sys, this`read, receiver.ring`head, receiver.ring`len, receiver.ring`read
      ensures Valid() && sys == old(After(P.AppReads(want)))
    {
      hide P.Safe, Queue.Valid, Receiver.Valid, Wire, IsAck;
      P.StepSafe(sys, P.AppReads(want), stream, queue.cap, receiver.ooo.max);
      ghost var next := After(P.AppReads(want));
      var out := receiver.Read(want);
      read := read + out;
      sys := next;
    }

    /** The receiver acknowledges, with up to `limit` blocks. */
    method Acknowledge(limit: nat)
      requires Valid()
      modifies this`sys, this`acks
      ensures Valid() && sys == old(After(P.PeerAcks(limit)))
      ensures |acks| == |old(acks)| + 1 && A.LastTells(sys.acks, receiver.View(), limit)
    {
      hide P.Safe, Queue.Valid, Wire, OooList.List.Valid, Reported, R.Shaped, A.LastTells;
      A.PeerAckTells(sys, limit, stream, queue.cap, receiver.ooo.max);
      P.StepSafe(sys, P.PeerAcks(limit), stream, queue.cap, receiver.ooo.max);
      ghost var next := After(P.PeerAcks(limit));
      var blocks := receiver.ooo.FillSackBlocks([], limit, receiver.nxt);
      BlocksTravel(receiver.ooo.rs, receiver.ooo.clock, limit);
      acks := acks + [AckPacket(receiver.rcvNxt, blocks)];
      sys := next;
    }

    /** So of the stored ends too: every byte the sender has marked SACKED or taken
        off its queue is held or delivered, and what was read is the stream's start. */
    lemma StoredEndsAreSafe(p: int)
      requires Valid()
      ensures var r := receiver.View();
              && (r.base <= p < sys.una || Marked(Sacked, queue.recs, p) ==> R.Got(r, p))
              && R.IsSlice(stream, r.base, read) && r.base + |read| <= r.nxt <= sys.nxt
    {
      hide P.Safe, Queue.Valid, Receiver.Valid;
      P.SafeIsSound(sys, stream, queue.cap, receiver.ooo.max, p);
    }
  }

  /** SACK each block in turn. */
  method Absorb(q: Queue, blocks: seq<(u32, u32)>, ghost ms: seq<(int, int)>, ghost una: int, ghost nxt: int)
    requires q.Valid() && P.Spans(q.recs, una, nxt) && nxt - una <= MAX_SPAN && |blocks| == |ms|
    requires forall i :: 0 <= i < |ms| ==>
               blocks[i] == (Wire(ms[i].0), Wire(ms[i].1)) && una < ms[i].0 < ms[i].1 <= nxt
    modifies q, q.segs, q.words
    ensures q.Valid() && P.Spans(q.recs, una, nxt)
    ensures Inv(old(q.View()), q.cap) && q.View() == P.Blocks(old(q.View()), ms, q.cap)
  {
    hide Chain, SentInOrder, Queue.Valid, Wire;
    QueueInv(q);
    ghost var was := q.View();
    assert ms[0..] == ms;
    for i := 0 to |blocks|
      invariant q.Valid() && P.Spans(q.recs, una, nxt) && Inv(q.View(), q.cap)
      invariant P.Blocks(q.View(), ms[i..], q.cap) == P.Blocks(was, ms, q.cap)
    {
      ghost var l, r := ms[i].0, ms[i].1;
      SpansNear(q.recs, una, nxt, l);
      SpansNear(q.recs, una, nxt, r);
      assert ms[i..][0] == ms[i] && ms[i..][1..] == ms[i + 1..];
      P.BlocksSpan(q.View(), [ms[i]], q.cap, una, nxt);
      OneBlock(q.View(), ms[i], q.cap);
      var newly, hits := q.Sack(blocks[i].0, blocks[i].1, l, r);
      QueueInv(q);
    }
    assert ms[|ms|..] == [];
  }

  lemma OneBlock(b: Board, x: (int, int), cap: nat)
    requires Inv(b, cap)
    ensures P.Blocks(b, [x], cap) == Next(b, SackBlock(x.0, x.1), cap) == Step(b, SackBlock(x.0, x.1), cap)
  {
    assert [x][1..] == [];
  }

  lemma QueueInv(q: Queue)
    requires q.Valid()
    ensures Inv(q.View(), q.cap)
  {
  }

  lemma SliceIs(S: R.Stream, p: int, data: seq<u8>)
    requires R.IsSlice(S, p, data)
    ensures data == P.Slice(S, p, |data|)
  {
  }

  /** The blocks on the wire are the reported ones. */
  lemma BlocksTravel(rs: seq<Ranges.Range>, clock: nat, limit: nat)
    ensures var xs := Reported(rs, clock, Min(limit, 4));
            var out := OooList.PushAll([], xs);
            |out| == |xs| && forall i :: 0 <= i < |xs| ==> out[i] == (Wire(xs[i].0), Wire(xs[i].1))
  {
    var xs := Reported(rs, clock, Min(limit, 4));
    OooList.PushedBlocks([], xs, 0);
    forall i | 0 <= i < |xs| ensures OooList.PushAll([], xs)[i] == (Wire(xs[i].0), Wire(xs[i].1)) {
      OooList.PushedBlocks([], xs, i);
    }
  }
}
