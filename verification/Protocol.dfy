/** Sender queue and receiver joined by a network that may drop, duplicate,
    delay and reorder segments and acknowledgements. */
module Protocol {
  import opened Serial
  import opened Scoreboard
  import opened Sacking
  import opened QueueRuns
  import opened Ranges
  import opened Recency
  import R = Reassembly

  /** A data segment, by its true position. */
  datatype Segment = Segment(p: int, data: seq<u8>)

  /** An acknowledgement: cumulative position and SACK blocks. */
  datatype AckMsg = AckMsg(ack: int, blocks: seq<(int, int)>)

  /** The two ends, and everything ever put on the network. A message sent once
      may arrive any number of times, at any later time, or never. */
  datatype System = System(board: Board, una: int, nxt: int, peer: R.Session,
                           data: seq<Segment>, acks: seq<AckMsg>)

  datatype Event =
    | Send(len: nat, now: nat)
    | Local(op: Op)
    | Resend(i: nat, now: nat, sent: nat)
    | DataArrives(k: nat)
    | AppReads(n: nat)
    | PeerAcks(limit: nat)
    | AckArrives(k: nat)

  // ---- Steps ---------------------------------------------------------------

  ghost function Slice(S: R.Stream, p: int, len: nat): (r: seq<u8>)
    ensures |r| == len && R.IsSlice(S, p, r)
  {
    seq<u8>(len, k requires 0 <= k < len => S(p + k))
  }

  /** Each block in turn. */
  function Blocks(b: Board, blocks: seq<(int, int)>, cap: nat): (r: Board)
    requires Inv(b, cap)
    ensures Inv(r, cap)
    decreases |blocks|
  {
    if blocks == [] then b
    else Blocks(Next(b, SackBlock(blocks[0].0, blocks[0].1), cap), blocks[1..], cap)
  }

  /** The queue operations a sender does on its own account. */
  predicate OwnOp(op: Op) {
    op.Split? || op.MarkLost? || op.MarkAllLost? || op.UnmarkLost? || op.ClearSacked?
  }

  /** What may happen. The sender keeps within the largest window and within its own
      queue; no message arrives after its receiver has moved on by 2^31 bytes. */
  predicate Enabled(s: System, e: Event, cap: nat) {
    match e
    case Send(len, now) =>
      && len > 0 && |s.board.recs| < cap && s.nxt + len - s.una <= MAX_SPAN && now <= U64_MAX
      && Allowed(s.board, Push(s.nxt, s.nxt + len, now, false))
    case Local(op) => OwnOp(op) && (op.Split? ==> s.una <= op.at <= s.nxt)
    case Resend(i, now, sent) =>
      i < |s.board.recs| && now <= U64_MAX && sent < 0x1_0000 && Allowed(s.board, Retransmit(i, now, sent))
    case DataArrives(k) => k < |s.data| && s.peer.recv.nxt - s.data[k].p < HALF
    case AckArrives(k) => k < |s.acks| && s.una - s.acks[k].ack < HALF
    case _ => true
  }

  ghost function Step(s: System, e: Event, S: R.Stream, cap: nat, max: nat): System
    requires Inv(s.board, cap) && R.Shaped(s.peer.recv, max) && Enabled(s, e, cap)
  {
    match e
    case Send(len, now) =>
      s.(board := Next(s.board, Push(s.nxt, s.nxt + len, now, false), cap), nxt := s.nxt + len,
         data := s.data + [Segment(s.nxt, Slice(S, s.nxt, len))])
    case Local(op) => s.(board := Next(s.board, op, cap))
    case Resend(i, now, sent) =>
      var x := s.board.recs[i];
      assert RecOk(x);
      s.(board := Next(s.board, Retransmit(i, now, sent), cap),
         data := s.data + [Segment(x.start, Slice(S, x.start, if sent > 0 then sent else x.Len()))])
    case DataArrives(k) => s.(peer := R.Happen(s.peer, R.Arrive(s.data[k].p, s.data[k].data), max))
    case AppReads(n) => s.(peer := R.Happen(s.peer, R.Read(n), max))
    case PeerAcks(limit) =>
      var r := s.peer.recv;
      s.(acks := s.acks + [AckMsg(r.nxt, Reported(r.ranges, r.clock, Min(limit, 4)))])
    case AckArrives(k) =>
      var m := s.acks[k];
      if s.una <= m.ack <= s.nxt then
        s.(board := Next(Blocks(s.board, m.blocks, cap), Ack(m.ack), cap), una := m.ack)
      else s
  }

  // ---- Safety --------------------------------------------------------------

  /** The acknowledgement claims nothing the peer has not received, and its blocks lie
      above its cumulative position and apart. */
  ghost predicate Honest(m: AckMsg, r: R.Recv) {
    && m.ack <= r.nxt && Apart(m.blocks)
    && (forall i :: 0 <= i < |m.blocks| ==> m.ack < m.blocks[i].0 < m.blocks[i].1)
    && forall i, p :: 0 <= i < |m.blocks| && m.blocks[i].0 <= p < m.blocks[i].1 ==> R.Got(r, p)
  }

  /** The queue spans exactly what is outstanding. */
  predicate Spans(q: seq<Rec>, una: int, nxt: int) {
    una <= nxt && if q == [] then una == nxt else First(q) == una && Last(q) == nxt
  }

  predicate Carries(x: Segment, p: int) {
    x.p <= p < x.p + |x.data|
  }

  /** Some segment ever sent carries `p`. */
  ghost predicate OnNetwork(data: seq<Segment>, p: int) {
    exists i :: 0 <= i < |data| && Carries(data[i], p)
  }

  ghost predicate Safe(s: System, S: R.Stream, cap: nat, max: nat) {
    && Inv(s.board, cap) && R.SessionInv(s.peer, S, max)
    && Spans(s.board.recs, s.una, s.nxt) && s.nxt - s.una <= MAX_SPAN
    && |s.peer.recv.buf| <= MAX_SPAN
    && s.peer.recv.base <= s.una <= s.peer.recv.nxt
    && (forall p :: R.Got(s.peer.recv, p) ==> p < s.nxt)
    && (forall p :: Marked(Sacked, s.board.recs, p) ==> R.Got(s.peer.recv, p))
    && (forall i :: 0 <= i < |s.data| ==>
          && R.IsSlice(S, s.data[i].p, s.data[i].data)
          && |s.data[i].data| <= MAX_SPAN && s.data[i].p + |s.data[i].data| <= s.nxt)
    && (forall i :: 0 <= i < |s.acks| ==> Honest(s.acks[i], s.peer.recv))
    && (forall p :: s.peer.recv.base <= p < s.nxt ==> OnNetwork(s.data, p))
  }

  // ---- What sender operations do to the SACKED set -------------------------

  lemma OwnOpSacked(b: Board, op: Op, cap: nat, p: int)
    requires Inv(b, cap) && (OwnOp(op) || op.Retransmit?)
    requires Marked(Sacked, Next(b, op, cap).recs, p)
    ensures Marked(Sacked, b.recs, p)
  {
    var q := Next(b, op, cap).recs;
    if op.Split? && op.i < |b.recs| && Inside(b.recs[op.i], op.at) {
      SplitMarks(Sacked, b.recs, op.i, op.at, p);
    } else if !op.Split? {
      var k :| 0 <= k < |q| && Covers(Sacked, q[k], p);
      assert Covers(Sacked, b.recs[k], p);
    }
  }

  lemma OwnOpSpans(b: Board, op: Op, cap: nat, una: int, nxt: int)
    requires Inv(b, cap) && (OwnOp(op) || op.Retransmit?) && Spans(b.recs, una, nxt)
    ensures Spans(Next(b, op, cap).recs, una, nxt)
  {
    if op.Split? && op.i < |b.recs| && Inside(b.recs[op.i], op.at) {
      SplitChain(b.recs, op.i, op.at);
    }
  }

  lemma PushSacked(b: Board, start: int, end: int, now: nat, cap: nat, p: int)
    requires Inv(b, cap)
    requires Marked(Sacked, Next(b, Push(start, end, now, false), cap).recs, p)
    ensures Marked(Sacked, b.recs, p)
  {
    var q := Next(b, Push(start, end, now, false), cap).recs;
    var k :| 0 <= k < |q| && Covers(Sacked, q[k], p);
    assert k < |b.recs| ==> Covers(Sacked, b.recs[k], p);
  }

  lemma AckSacked(b: Board, una: int, cap: nat, p: int)
    requires Inv(b, cap) && Marked(Sacked, Next(b, Ack(una), cap).recs, p)
    ensures Marked(Sacked, b.recs, p)
  {
    AckChain(b.recs, una);
    MarkedRange(Sacked, AckTo(b.recs, una), p);
    AckMarks(Sacked, b.recs, una, p);
  }

  /** Blocks mark nothing they do not cover. */
  lemma {:induction false} BlocksSacked(b: Board, blocks: seq<(int, int)>, cap: nat, p: int)
    requires Inv(b, cap) && Marked(Sacked, Blocks(b, blocks, cap).recs, p)
    ensures Marked(Sacked, b.recs, p) || exists i :: 0 <= i < |blocks| && blocks[i].0 <= p < blocks[i].1
    decreases |blocks|
  {
    if blocks != [] {
      var b1 := Next(b, SackBlock(blocks[0].0, blocks[0].1), cap);
      BlocksSacked(b1, blocks[1..], cap, p);
      SackIsBounded(b.recs, blocks[0].0, blocks[0].1, cap, p);
      if !Marked(Sacked, b1.recs, p) {
        var i :| 0 <= i < |blocks[1..]| && blocks[1..][i].0 <= p < blocks[1..][i].1;
        assert blocks[i + 1].0 <= p < blocks[i + 1].1;
      } else if !Marked(Sacked, b.recs, p) {
        assert blocks[0].0 <= p < blocks[0].1;
      }
    }
  }

  lemma {:induction false} BlocksSpan(b: Board, blocks: seq<(int, int)>, cap: nat, una: int, nxt: int)
    requires Inv(b, cap) && Spans(b.recs, una, nxt)
    ensures Spans(Blocks(b, blocks, cap).recs, una, nxt)
    decreases |blocks|
  {
    if blocks != [] {
      SackKeepsChain(b.recs, blocks[0].0, blocks[0].1, cap);
      BlocksSpan(Next(b, SackBlock(blocks[0].0, blocks[0].1), cap), blocks[1..], cap, una, nxt);
    }
  }

  // ---- Every step keeps safety ---------------------------------------------

  lemma SentToo(data: seq<Segment>, x: Segment, p: int)
    ensures OnNetwork(data + [x], p) <==> OnNetwork(data, p) || Carries(x, p)
  {
    var all := data + [x];
    if OnNetwork(data, p) {
      var i :| 0 <= i < |data| && Carries(data[i], p);
      assert all[i] == data[i];
    }
    assert all[|data|] == x;
  }

  lemma SendSafe(s: System, len: nat, now: nat, S: R.Stream, cap: nat, max: nat)
    requires Safe(s, S, cap, max) && Enabled(s, Send(len, now), cap)
    ensures Safe(Step(s, Send(len, now), S, cap, max), S, cap, max)
  {
    hide Chain, SentInOrder, R.Got, R.IsSlice, Marked, R.Kept, OnNetwork;
    var s' := Step(s, Send(len, now), S, cap, max);
    forall p | s.peer.recv.base <= p < s'.nxt ensures OnNetwork(s'.data, p) {
      SentToo(s.data, Segment(s.nxt, Slice(S, s.nxt, len)), p);
    }
    forall p | Marked(Sacked, s'.board.recs, p) ensures R.Got(s'.peer.recv, p) {
      PushSacked(s.board, s.nxt, s.nxt + len, now, cap, p);
    }
  }

  lemma OwnSafe(s: System, op: Op, S: R.Stream, cap: nat, max: nat)
    requires Safe(s, S, cap, max) && (OwnOp(op) || op.Retransmit?)
    ensures Safe(s.(board := Next(s.board, op, cap)), S, cap, max)
  {
    hide Chain, SentInOrder, R.SessionInv, R.Got, R.IsSlice, Marked, Next, Spans, OnNetwork;
    OwnOpSpans(s.board, op, cap, s.una, s.nxt);
    forall p | Marked(Sacked, Next(s.board, op, cap).recs, p) ensures R.Got(s.peer.recv, p) {
      OwnOpSacked(s.board, op, cap, p);
    }
  }

  lemma ResendSafe(s: System, i: nat, now: nat, sent: nat, S: R.Stream, cap: nat, max: nat)
    requires Safe(s, S, cap, max) && Enabled(s, Resend(i, now, sent), cap)
    ensures Safe(Step(s, Resend(i, now, sent), S, cap, max), S, cap, max)
  {
    hide Chain, SentInOrder, R.Got, R.IsSlice, R.Kept, Marked, Next, OnNetwork;
    OwnSafe(s, Retransmit(i, now, sent), S, cap, max);
    var s' := Step(s, Resend(i, now, sent), S, cap, max);
    forall p | s.peer.recv.base <= p < s.nxt ensures OnNetwork(s'.data, p) {
      SentToo(s.data, s'.data[|s.data|], p);
    }
    RecWithin(s.board.recs, i);
  }

  lemma RecWithin(q: seq<Rec>, i: nat)
    requires Chain(q) && i < |q|
    ensures RecOk(q[i]) && First(q) <= q[i].start && q[i].end <= Last(q)
  {
    if i > 0 {
      Ordered(q, 0, i);
    }
    if i < |q| - 1 {
      Ordered(q, i, |q| - 1);
    }
  }

  /** What was received stays received, so every old claim stays true. */
  lemma StillHonest(m: AckMsg, r: R.Recv, r': R.Recv)
    requires Honest(m, r) && r.nxt <= r'.nxt
    requires forall p :: R.Got(r, p) ==> R.Got(r', p)
    ensures Honest(m, r')
  {
  }

  lemma PeerMoves(s: System, x: R.Session, S: R.Stream, cap: nat, max: nat)
    requires Safe(s, S, cap, max) && R.SessionInv(x, S, max)
    requires x.recv.base == s.peer.recv.base && |x.recv.buf| == |s.peer.recv.buf|
    requires s.peer.recv.nxt <= x.recv.nxt
    requires forall p :: R.Got(s.peer.recv, p) ==> R.Got(x.recv, p)
    requires forall p :: R.Got(x.recv, p) ==> p < s.nxt
    ensures Safe(s.(peer := x), S, cap, max)
  {
    hide Chain, SentInOrder, R.SessionInv, R.Got, R.IsSlice, Marked, Spans, Honest, OnNetwork;
    forall i | 0 <= i < |s.acks| ensures Honest(s.acks[i], x.recv) {
      StillHonest(s.acks[i], s.peer.recv, x.recv);
    }
  }

  lemma ArrivalSafe(s: System, k: nat, S: R.Stream, cap: nat, max: nat)
    requires Safe(s, S, cap, max) && Enabled(s, DataArrives(k), cap)
    ensures Safe(Step(s, DataArrives(k), S, cap, max), S, cap, max)
  {
    hide Chain, SentInOrder, R.IsSlice, Marked, Spans, Honest, R.Got, R.Deliver, R.Clip, OnNetwork;
    var d, r := s.data[k], s.peer.recv;
    R.HappenKeeps(s.peer, R.Arrive(d.p, d.data), S, max);
    var r' := R.Deliver(r, d.p, d.data, max);
    forall p ensures R.Got(r, p) ==> R.Got(r', p)
             ensures R.Got(r', p) ==> p < s.nxt {
      R.DeliverGets(r, d.p, d.data, max, p);
      R.ClipWithin(r, d.p, d.data);
    }
    R.NextGrows(r, d.p, d.data, max);
    PeerMoves(s, R.Happen(s.peer, R.Arrive(d.p, d.data), max), S, cap, max);
  }

  lemma ReadSafe(s: System, n: nat, S: R.Stream, cap: nat, max: nat)
    requires Safe(s, S, cap, max)
    ensures Safe(Step(s, AppReads(n), S, cap, max), S, cap, max)
  {
    hide Chain, SentInOrder, R.IsSlice, Marked, Spans, Honest, OnNetwork;
    R.HappenKeeps(s.peer, R.Read(n), S, max);
    var r, r' := s.peer.recv, R.Happen(s.peer, R.Read(n), max).recv;
    assert forall p :: R.Got(r', p) <==> R.Got(r, p);
    PeerMoves(s, R.Happen(s.peer, R.Read(n), max), S, cap, max);
  }

  /** A fresh acknowledgement claims only what is held or delivered. */
  lemma AckIsHonest(r: R.Recv, k: nat, max: nat)
    requires R.Shaped(r, max)
    ensures Honest(AckMsg(r.nxt, Reported(r.ranges, r.clock, k)), r)
  {
    hide Selected;
    ReportedApart(r.ranges, r.nxt, r.clock, k);
    var all := Measured(r.ranges, r.clock);
    var top := Selected(all, k);
    forall i | 0 <= i < |top|
      ensures r.nxt < top[i].start < top[i].end
      ensures forall p :: top[i].start <= p < top[i].end ==> R.Got(r, p)
    {
      assert top[i] in top;
      SelectedMember(all, k, top[i]);
      var j :| 0 <= j < |all| && all[j] == top[i];
      assert forall p :: top[i].start <= p < top[i].end ==> Contains(r.ranges[j], p);
    }
  }

  lemma PeerAckSafe(s: System, limit: nat, S: R.Stream, cap: nat, max: nat)
    requires Safe(s, S, cap, max)
    ensures Safe(Step(s, PeerAcks(limit), S, cap, max), S, cap, max)
  {
    hide Chain, SentInOrder, R.IsSlice, Marked, Spans, Honest, Reported, OnNetwork;
    AckIsHonest(s.peer.recv, Min(limit, 4), max);
  }

  lemma AckArrivalSafe(s: System, k: nat, S: R.Stream, cap: nat, max: nat)
    requires Safe(s, S, cap, max) && Enabled(s, AckArrives(k), cap)
    ensures Safe(Step(s, AckArrives(k), S, cap, max), S, cap, max)
  {
    hide Chain, SentInOrder, R.IsSlice, Marked, R.SessionInv, Blocks, Next, OnNetwork;
    var m := s.acks[k];
    if s.una <= m.ack <= s.nxt {
      var b := Blocks(s.board, m.blocks, cap);
      BlocksSpan(s.board, m.blocks, cap, s.una, s.nxt);
      AckSpans(b, m.ack, cap, s.una, s.nxt);
      forall p | Marked(Sacked, Next(b, Ack(m.ack), cap).recs, p) ensures R.Got(s.peer.recv, p) {
        AckSacked(b, m.ack, cap, p);
        BlocksSacked(s.board, m.blocks, cap, p);
      }
    }
  }

  lemma AckSpans(b: Board, ack: int, cap: nat, una: int, nxt: int)
    requires Inv(b, cap) && Spans(b.recs, una, nxt) && una <= ack <= nxt
    ensures Spans(Next(b, Ack(ack), cap).recs, ack, nxt)
  {
    AckChain(b.recs, ack);
  }

  lemma StepSafe(s: System, e: Event, S: R.Stream, cap: nat, max: nat)
    requires Safe(s, S, cap, max) && Enabled(s, e, cap)
    ensures Safe(Step(s, e, S, cap, max), S, cap, max)
  {
    hide Safe, R.SessionInv, Inv, Step, Enabled;
    match e
    case Send(len, now) => SendSafe(s, len, now, S, cap, max);
    case Local(op) => LocalSafe(s, op, S, cap, max);
    case Resend(i, now, sent) => ResendSafe(s, i, now, sent, S, cap, max);
    case DataArrives(k) => ArrivalSafe(s, k, S, cap, max);
    case AppReads(n) => ReadSafe(s, n, S, cap, max);
    case PeerAcks(limit) => PeerAckSafe(s, limit, S, cap, max);
    case AckArrives(k) => AckArrivalSafe(s, k, S, cap, max);
  }

  lemma LocalSafe(s: System, op: Op, S: R.Stream, cap: nat, max: nat)
    requires Safe(s, S, cap, max) && Enabled(s, Local(op), cap)
    ensures Safe(Step(s, Local(op), S, cap, max), S, cap, max)
  {
    hide Chain, SentInOrder, R.IsSlice, Marked, R.Kept, Next, OnNetwork;
    OwnSafe(s, op, S, cap, max);
  }

  lemma BaseKept(s: System, e: Event, S: R.Stream, cap: nat, max: nat)
    requires Inv(s.board, cap) && R.Shaped(s.peer.recv, max) && Enabled(s, e, cap)
    ensures Step(s, e, S, cap, max).peer.recv.base == s.peer.recv.base
  {
    hide Chain, SentInOrder, Ranges.RangesOk, Next, Blocks, Reported, Slice;
    match e
    case DataArrives(k) =>
      R.NextGrows(s.peer.recv, s.data[k].p, s.data[k].data, max);
    case _ =>
  }

  // ---- Runs ----------------------------------------------------------------

  function Start(base: int, buf: seq<u8>): System {
    System(Board([], 0), base, base, R.Fresh(base, buf), [], [])
  }

  lemma StartSafe(base: int, buf: seq<u8>, S: R.Stream, cap: nat, max: nat)
    requires 0 < |buf| <= MAX_SPAN
    ensures Safe(Start(base, buf), S, cap, max)
  {
  }

  /** The state after the events `es`; one that is not possible does not happen. */
  ghost function After(base: int, buf: seq<u8>, es: seq<Event>, S: R.Stream, cap: nat, max: nat): (s: System)
    requires 0 < |buf| <= MAX_SPAN
    ensures Safe(s, S, cap, max) && s.peer.recv.base == base
  {
    if es == [] then Start(base, buf)
    else
      var s, e := After(base, buf, es[..|es| - 1], S, cap, max), es[|es| - 1];
      if Enabled(s, e, cap) then
        StepSafe(s, e, S, cap, max);
        BaseKept(s, e, S, cap, max);
        Step(s, e, S, cap, max)
      else s
  }

  /** In every run, every byte the sender has marked SACKED or taken off its queue
      by a cumulative ACK is held or already delivered at the receiver, every byte it
      counts as sent was put on the network, and what the receiving application has
      read is a prefix of the stream sent. */
  lemma ProtocolIsSafe(base: int, buf: seq<u8>, es: seq<Event>, S: R.Stream, cap: nat, max: nat, p: int)
    requires 0 < |buf| <= MAX_SPAN
    ensures var s := After(base, buf, es, S, cap, max);
            var r := s.peer.recv;
            && (base <= p < s.una || Marked(Sacked, s.board.recs, p) ==> R.Got(r, p))
            && (base <= p < s.nxt ==> OnNetwork(s.data, p))
            && R.IsSlice(S, base, s.peer.out) && base + |s.peer.out| <= r.nxt <= s.nxt
  {
    hide Safe, Start, Step, Enabled;
    SafeIsSound(After(base, buf, es, S, cap, max), S, cap, max, p);
  }

  lemma SafeIsSound(s: System, S: R.Stream, cap: nat, max: nat, p: int)
    requires Safe(s, S, cap, max)
    ensures var r := s.peer.recv;
            && (r.base <= p < s.una || Marked(Sacked, s.board.recs, p) ==> R.Got(r, p))
            && (r.base <= p < s.nxt ==> OnNetwork(s.data, p))
            && R.IsSlice(S, r.base, s.peer.out) && r.base + |s.peer.out| <= r.nxt <= s.nxt
  {
    if s.peer.recv.base < s.peer.recv.nxt {
      assert R.Got(s.peer.recv, s.peer.recv.nxt - 1);
    }
  }

  /** A retransmission puts on the network exactly the bytes the queue then counts as
      resent, and they are the stream's. */
  lemma ResendPutsOut(s: System, i: nat, now: nat, sent: nat, S: R.Stream, cap: nat, max: nat, p: int)
    requires Safe(s, S, cap, max) && Enabled(s, Resend(i, now, sent), cap)
    ensures var x, s' := s.board.recs[i], Step(s, Resend(i, now, sent), S, cap, max);
            && |s'.data| == |s.data| + 1 && s'.data[..|s.data|] == s.data
            && R.IsSlice(S, s'.data[|s.data|].p, s'.data[|s.data|].data)
            && (Carries(s'.data[|s.data|], p) <==>
                x.start <= p < x.end && Marked(Resent, s'.board.recs, p))
  {
    hide SentInOrder, R.SessionInv, R.Got, OnNetwork;
    var x := s.board.recs[i];
    assert RecOk(x);
    var t := ResentRec(x, now, sent, s.board.nextXmit);
    assert RecOk(t);
    UpdateMarks(Resent, s.board.recs, i, t, p);
  }

  lemma SafeBounds(s: System, S: R.Stream, cap: nat, max: nat)
    requires Safe(s, S, cap, max)
    ensures Inv(s.board, cap) && Spans(s.board.recs, s.una, s.nxt) && s.nxt - s.una <= MAX_SPAN
    ensures s.una <= s.peer.recv.nxt
  {
  }

  /** No segment lies further ahead of the receiver than the largest window. */
  lemma SegmentWithin(s: System, k: nat, S: R.Stream, cap: nat, max: nat)
    requires Safe(s, S, cap, max) && k < |s.data|
    ensures s.data[k].p - s.peer.recv.nxt <= MAX_SPAN
  {
  }

  /** A safe sender is never shown an acknowledgement beyond what it sent, and every
      block of one it acts on lies within what is outstanding. */
  lemma AckWithin(s: System, k: nat, S: R.Stream, cap: nat, max: nat)
    requires Safe(s, S, cap, max) && k < |s.acks|
    ensures s.acks[k].ack <= s.nxt
    ensures forall i :: 0 <= i < |s.acks[k].blocks| ==>
              s.acks[k].ack < s.acks[k].blocks[i].0 < s.acks[k].blocks[i].1 <= s.nxt
    ensures Apart(s.acks[k].blocks)
  {
    var m, r := s.acks[k], s.peer.recv;
    assert Honest(m, r);
    SafeIsSound(s, S, cap, max, 0);
    forall i | 0 <= i < |m.blocks| ensures m.blocks[i].1 <= s.nxt {
      assert R.Got(r, m.blocks[i].1 - 1);
    }
  }
}
