/** The system's two ends as runs of their own, and that a run can always be finished. */
module SystemRuns {
  import opened Serial
  import opened Scoreboard
  import opened Sacking
  import opened QueueRuns
  import opened Protocol
  import R = Reassembly

  lemma AfterOne(base: int, buf: seq<u8>, es: seq<Event>, e: Event, S: R.Stream, cap: nat, max: nat)
    requires 0 < |buf| <= MAX_SPAN
    ensures var s := Protocol.After(base, buf, es, S, cap, max);
            && Safe(s, S, cap, max)
            && Protocol.After(base, buf, es + [e], S, cap, max)
               == if Enabled(s, e, cap) then Protocol.Step(s, e, S, cap, max) else s
  {
    hide Safe, Protocol.Step, Enabled, Start;
    assert (es + [e])[..|es|] == es;
    var s := Protocol.After(base, buf, es, S, cap, max);
    SafeShape(s, S, cap, max);
  }

  lemma SafeShape(s: System, S: R.Stream, cap: nat, max: nat)
    requires Safe(s, S, cap, max)
    ensures Inv(s.board, cap) && R.Shaped(s.peer.recv, max) && R.SessionInv(s.peer, S, max)
  {
  }

  // ---- The receiver --------------------------------------------------------

  /** What the receiver sees of the event `e` in the state `s`. */
  function Seen(s: System, e: Event, cap: nat): seq<R.Event> {
    if !Enabled(s, e, cap) then []
    else match e
      case DataArrives(k) => [R.Arrive(s.data[k].p, s.data[k].data)]
      case AppReads(n) => [R.Read(n)]
      case _ => []
  }

  ghost function ReceiverEvents(base: int, buf: seq<u8>, es: seq<Event>, S: R.Stream, cap: nat, max: nat): seq<R.Event>
    requires 0 < |buf| <= MAX_SPAN
  {
    if es == [] then []
    else
      var was := es[..|es| - 1];
      ReceiverEvents(base, buf, was, S, cap, max)
      + Seen(Protocol.After(base, buf, was, S, cap, max), es[|es| - 1], cap)
  }

  lemma PeerStep(s: System, e: Event, S: R.Stream, cap: nat, max: nat)
    requires Safe(s, S, cap, max) && Enabled(s, e, cap)
    ensures Inv(s.board, cap) && R.Shaped(s.peer.recv, max)
    ensures var xs := Seen(s, e, cap);
            && |xs| <= 1 && (xs != [] && xs[0].Arrive? ==> R.IsSlice(S, xs[0].p, xs[0].data))
            && Protocol.Step(s, e, S, cap, max).peer == if xs == [] then s.peer else R.Happen(s.peer, xs[0], max)
  {
    hide Chain, SentInOrder, R.IsSlice, Marked, Spans, Honest, OnNetwork, Blocks, Next, R.Kept;
  }

  /** The receiver ends up as after the arrivals and reads alone. */
  lemma {:induction false} ReceiverIsRun(base: int, buf: seq<u8>, es: seq<Event>, S: R.Stream, cap: nat, max: nat)
    requires 0 < |buf| <= MAX_SPAN
    ensures var rs := ReceiverEvents(base, buf, es, S, cap, max);
            && R.AllSlices(rs, S)
            && Protocol.After(base, buf, es, S, cap, max).peer == R.After(base, buf, rs, S, max)
  {
    hide Safe, R.IsSlice, Enabled, Protocol.Step, R.Happen, R.SessionInv, Inv, R.Shaped;
    hide Protocol.After, R.After, ReceiverEvents, Seen;
    if es != [] {
      var was, e := es[..|es| - 1], es[|es| - 1];
      var s, rs := Protocol.After(base, buf, was, S, cap, max), ReceiverEvents(base, buf, was, S, cap, max);
      ReceiverIsRun(base, buf, was, S, cap, max);
      assert was + [e] == es;
      AfterOne(base, buf, was, e, S, cap, max);
      var xs := Seen(s, e, cap);
      EventsOne(base, buf, es, S, cap, max);
      if Enabled(s, e, cap) {
        PeerStep(s, e, S, cap, max);
      } else {
        NothingSeen(s, e, cap);
      }
      if xs == [] {
        assert rs + xs == rs;
      } else {
        R.AfterOne(base, buf, rs, xs[0], S, max);
        assert rs + xs == rs + [xs[0]];
      }
    } else {
      NoEvents(base, buf, S, cap, max);
    }
  }

  lemma EventsOne(base: int, buf: seq<u8>, es: seq<Event>, S: R.Stream, cap: nat, max: nat)
    requires 0 < |buf| <= MAX_SPAN && es != []
    ensures var was := es[..|es| - 1];
            ReceiverEvents(base, buf, es, S, cap, max) ==
            ReceiverEvents(base, buf, was, S, cap, max)
            + Seen(Protocol.After(base, buf, was, S, cap, max), es[|es| - 1], cap)
  {
  }

  lemma NoEvents(base: int, buf: seq<u8>, S: R.Stream, cap: nat, max: nat)
    requires 0 < |buf| <= MAX_SPAN
    ensures ReceiverEvents(base, buf, [], S, cap, max) == [] && R.AllSlices([], S)
    ensures Protocol.After(base, buf, [], S, cap, max).peer == R.After(base, buf, [], S, max)
  {
  }

  lemma NothingSeen(s: System, e: Event, cap: nat)
    requires !Enabled(s, e, cap)
    ensures Seen(s, e, cap) == []
  {
  }

  // ---- The sender ----------------------------------------------------------

  function SackOps(blocks: seq<(int, int)>): (ops: seq<Op>)
    ensures |ops| == |blocks|
    ensures forall i :: 0 <= i < |blocks| ==> ops[i] == SackBlock(blocks[i].0, blocks[i].1)
  {
    seq(|blocks|, i requires 0 <= i < |blocks| => SackBlock(blocks[i].0, blocks[i].1))
  }

  /** What the event `e` has the sender do to its queue. */
  function Done(s: System, e: Event, cap: nat): seq<Op> {
    if !Enabled(s, e, cap) then []
    else match e
      case Send(len, now) => [Push(s.nxt, s.nxt + len, now, false)]
      case Local(op) => [op]
      case Resend(i, now, sent) => [Retransmit(i, now, sent)]
      case AckArrives(k) =>
        if s.una <= s.acks[k].ack <= s.nxt then SackOps(s.acks[k].blocks) + [Ack(s.acks[k].ack)] else []
      case _ => []
  }

  ghost function SenderOps(base: int, buf: seq<u8>, es: seq<Event>, S: R.Stream, cap: nat, max: nat): seq<Op>
    requires 0 < |buf| <= MAX_SPAN
  {
    if es == [] then []
    else
      var was := es[..|es| - 1];
      SenderOps(base, buf, was, S, cap, max)
      + Done(Protocol.After(base, buf, was, S, cap, max), es[|es| - 1], cap)
  }

  lemma {:induction false} AfterMore(b: Board, xs: seq<Op>, ys: seq<Op>, cap: nat)
    requires Inv(b, cap)
    ensures QueueRuns.After(b, xs + ys, cap) == QueueRuns.After(QueueRuns.After(b, xs, cap), ys, cap)
    decreases |xs|
  {
    hide Inv, Next;
    if xs == [] {
      assert xs + ys == ys;
    } else {
      assert (xs + ys)[0] == xs[0] && (xs + ys)[1..] == xs[1..] + ys;
      AfterMore(Next(b, xs[0], cap), xs[1..], ys, cap);
    }
  }

  lemma {:induction false} BlocksAreOps(b: Board, blocks: seq<(int, int)>, cap: nat)
    requires Inv(b, cap)
    ensures Blocks(b, blocks, cap) == QueueRuns.After(b, SackOps(blocks), cap)
    decreases |blocks|
  {
    hide Inv, Next;
    if blocks != [] {
      BlocksAreOps(Next(b, SackBlock(blocks[0].0, blocks[0].1), cap), blocks[1..], cap);
      assert SackOps(blocks)[1..] == SackOps(blocks[1..]);
    }
  }

  lemma OneOp(b: Board, op: Op, cap: nat)
    requires Inv(b, cap)
    ensures QueueRuns.After(b, [op], cap) == Next(b, op, cap)
  {
    hide Inv, Next;
    assert [op][1..] == [];
  }

  lemma BoardStep(s: System, e: Event, S: R.Stream, cap: nat, max: nat)
    requires Safe(s, S, cap, max) && Enabled(s, e, cap)
    ensures Inv(s.board, cap) && R.Shaped(s.peer.recv, max)
    ensures Protocol.Step(s, e, S, cap, max).board == QueueRuns.After(s.board, Done(s, e, cap), cap)
  {
    hide Chain, SentInOrder, R.IsSlice, Marked, Spans, Honest, OnNetwork, Blocks, Next, R.Kept, SackOps;
    match e
    case Send(len, now) => OneOp(s.board, Push(s.nxt, s.nxt + len, now, false), cap);
    case Local(op) => OneOp(s.board, op, cap);
    case Resend(i, now, sent) => OneOp(s.board, Retransmit(i, now, sent), cap);
    case AckArrives(k) =>
      var m := s.acks[k];
      if s.una <= m.ack <= s.nxt {
        BlocksAreOps(s.board, m.blocks, cap);
        AfterMore(s.board, SackOps(m.blocks), [Ack(m.ack)], cap);
        OneOp(Blocks(s.board, m.blocks, cap), Ack(m.ack), cap);
      }
    case _ =>
  }

  /** The sender's queue ends up as after the operations that pushes, acknowledgements,
      retransmissions and its own marking amount to. */
  lemma {:induction false} SenderIsRun(base: int, buf: seq<u8>, es: seq<Event>, S: R.Stream, cap: nat, max: nat)
    requires 0 < |buf| <= MAX_SPAN
    ensures Protocol.After(base, buf, es, S, cap, max).board ==
            QueueRuns.After(Board([], 0), SenderOps(base, buf, es, S, cap, max), cap)
  {
    hide Safe, Enabled, Protocol.Step, Inv, R.Shaped, Next, Done;
    if es != [] {
      var was, e := es[..|es| - 1], es[|es| - 1];
      var s, ops := Protocol.After(base, buf, was, S, cap, max), SenderOps(base, buf, was, S, cap, max);
      SenderIsRun(base, buf, was, S, cap, max);
      assert was + [e] == es;
      AfterOne(base, buf, was, e, S, cap, max);
      EmptyInv(cap);
      AfterMore(Board([], 0), ops, Done(s, e, cap), cap);
      if Enabled(s, e, cap) {
        BoardStep(s, e, S, cap, max);
      } else {
        NothingDone(s, e, cap);
      }
    }
  }

  lemma EmptyInv(cap: nat)
    ensures Inv(Board([], 0), cap)
  {
  }

  lemma NothingDone(s: System, e: Event, cap: nat)
    requires !Enabled(s, e, cap)
    ensures Done(s, e, cap) == []
  {
  }

  // ---- Every run can be finished -------------------------------------------

  /** Reading all there is empties the window. */
  lemma ReadsAll(s: System, S: R.Stream, cap: nat, max: nat)
    requires Safe(s, S, cap, max)
    ensures Inv(s.board, cap) && R.Shaped(s.peer.recv, max)
    ensures var r := s.peer.recv;
            var e := AppReads(Max(r.nxt - r.read, 0));
            var s' := Protocol.Step(s, e, S, cap, max);
            && Enabled(s, e, cap) && s' == s.(peer := s'.peer)
            && s'.peer.recv.read == r.nxt == s'.peer.recv.nxt && |s'.peer.recv.buf| == |r.buf|
  {
    hide Chain, SentInOrder, R.IsSlice, Marked, Spans, Honest, OnNetwork, R.Kept;
  }

  /** With the window empty, some segment already on the network moves the receiver on. */
  lemma SomeArrivalHelps(s: System, S: R.Stream, cap: nat, max: nat) returns (k: nat)
    requires Safe(s, S, cap, max)
    requires s.peer.recv.read == s.peer.recv.nxt < s.nxt
    ensures Inv(s.board, cap) && R.Shaped(s.peer.recv, max) && Enabled(s, DataArrives(k), cap)
    ensures var s' := Protocol.Step(s, DataArrives(k), S, cap, max);
            s' == s.(peer := s'.peer) && s'.peer.recv.nxt > s.peer.recv.nxt
  {
    hide Chain, SentInOrder, R.IsSlice, Marked, Spans, Honest, R.Kept, R.Deliver;
    var r := s.peer.recv;
    assert OnNetwork(s.data, r.nxt);
    k :| 0 <= k < |s.data| && Carries(s.data[k], r.nxt);
    R.DeliverReaches(r, s.data[k].p, s.data[k].data, max);
  }

  lemma {:induction false} CanCatchUp(base: int, buf: seq<u8>, es: seq<Event>, S: R.Stream, cap: nat, max: nat)
    returns (more: seq<Event>)
    requires 0 < |buf| <= MAX_SPAN
    ensures var s, s' := Protocol.After(base, buf, es, S, cap, max), Protocol.After(base, buf, es + more, S, cap, max);
            s'.nxt == s.nxt == s'.peer.recv.nxt
    decreases Protocol.After(base, buf, es, S, cap, max).nxt - Protocol.After(base, buf, es, S, cap, max).peer.recv.nxt
  {
    hide Safe, Enabled, Protocol.Step, Protocol.After, Inv, R.Shaped;
    var s := Protocol.After(base, buf, es, S, cap, max);
    SafeIsSound(s, S, cap, max, 0);
    if s.peer.recv.nxt == s.nxt {
      more := [];
      assert es + more == es;
    } else {
      var e1 := AppReads(Max(s.peer.recv.nxt - s.peer.recv.read, 0));
      ReadsAll(s, S, cap, max);
      AfterOne(base, buf, es, e1, S, cap, max);
      var s1 := Protocol.After(base, buf, es + [e1], S, cap, max);
      var k := SomeArrivalHelps(s1, S, cap, max);
      AfterOne(base, buf, es + [e1], DataArrives(k), S, cap, max);
      var es2 := es + [e1] + [DataArrives(k)];
      SafeIsSound(Protocol.After(base, buf, es2, S, cap, max), S, cap, max, 0);
      var rest := CanCatchUp(base, buf, es2, S, cap, max);
      more := [e1, DataArrives(k)] + rest;
      assert es + more == es2 + rest;
    }
  }

  /** A caught-up receiver's acknowledgement empties the sender's queue. */
  lemma LastAck(s: System, S: R.Stream, cap: nat, max: nat)
    requires Safe(s, S, cap, max) && s.peer.recv.nxt == s.nxt
    ensures Inv(s.board, cap) && R.Shaped(s.peer.recv, max) && Enabled(s, PeerAcks(0), cap)
    ensures var s1 := Protocol.Step(s, PeerAcks(0), S, cap, max);
            && s1 == s.(acks := s1.acks) && |s1.acks| == |s.acks| + 1
            && s1.acks[|s.acks|].ack == s.nxt && Enabled(s1, AckArrives(|s.acks|), cap)
  {
    hide Chain, SentInOrder, R.IsSlice, Marked, Honest, OnNetwork, R.Kept;
  }

  lemma AckEmpties(s: System, k: nat, S: R.Stream, cap: nat, max: nat)
    requires Safe(s, S, cap, max) && Enabled(s, AckArrives(k), cap) && s.acks[k].ack == s.nxt
    ensures Inv(s.board, cap) && R.Shaped(s.peer.recv, max)
    ensures var s' := Protocol.Step(s, AckArrives(k), S, cap, max);
            s'.una == s'.nxt == s.nxt && s'.board.recs == [] && s'.peer == s.peer
  {
    hide Safe, SentInOrder;
    SafeShape(s, S, cap, max);
    SafeBounds(s, S, cap, max);
    StepSafe(s, AckArrives(k), S, cap, max);
    var s' := Protocol.Step(s, AckArrives(k), S, cap, max);
    SafeBounds(s', S, cap, max);
    if s'.board.recs != [] {
      NonEmptySpan(s'.board.recs);
    }
  }

  /** From every reachable state the run can go on so that all that was sent is
      delivered, read by the application and acknowledged, with the queue empty. */
  lemma CanFinish(base: int, buf: seq<u8>, es: seq<Event>, S: R.Stream, cap: nat, max: nat)
    returns (more: seq<Event>)
    requires 0 < |buf| <= MAX_SPAN
    ensures var s, s' := Protocol.After(base, buf, es, S, cap, max), Protocol.After(base, buf, es + more, S, cap, max);
            && s'.una == s'.nxt == s.nxt && s'.board.recs == []
            && |s'.peer.out| == s.nxt - base && R.IsSlice(S, base, s'.peer.out)
  {
    hide Safe, Enabled, Protocol.Step, Protocol.After, Inv, R.Shaped, R.IsSlice;
    var rest := CanCatchUp(base, buf, es, S, cap, max);
    var es1 := es + rest;
    var s1 := Protocol.After(base, buf, es1, S, cap, max);
    var e1 := AppReads(Max(s1.peer.recv.nxt - s1.peer.recv.read, 0));
    ReadsAll(s1, S, cap, max);
    AfterOne(base, buf, es1, e1, S, cap, max);
    var es2 := es1 + [e1];
    var s2 := Protocol.After(base, buf, es2, S, cap, max);
    LastAck(s2, S, cap, max);
    AfterOne(base, buf, es2, PeerAcks(0), S, cap, max);
    var es3 := es2 + [PeerAcks(0)];
    var s3 := Protocol.After(base, buf, es3, S, cap, max);
    var e3 := AckArrives(|s2.acks|);
    AckEmpties(s3, |s2.acks|, S, cap, max);
    AfterOne(base, buf, es3, e3, S, cap, max);
    more := rest + [e1, PeerAcks(0), e3];
    assert es + more == es3 + [e3];
    AllRead(Protocol.After(base, buf, es + more, S, cap, max), S, cap, max);
  }

  lemma AllRead(s: System, S: R.Stream, cap: nat, max: nat)
    requires Safe(s, S, cap, max)
    ensures |s.peer.out| == s.peer.recv.read - s.peer.recv.base && R.IsSlice(S, s.peer.recv.base, s.peer.out)
  {
  }
}
