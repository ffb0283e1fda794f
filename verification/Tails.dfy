/** What becomes of the rest of a segment when only its first bytes are resent. */
module Tails {
  import opened Scoreboard
  import opened Sacking
  import opened QueueRuns

  predicate Overlaps(s: Rec, lo: int, hi: int) {
    s.start < hi && lo < s.end
  }

  /** `s` is acknowledged, lost or sent again: not in flight merely as first sent. */
  predicate Tended(s: Rec) {
    s.flags.sacked || s.flags.lost || s.flags.retrans
  }

  /** Every record over the tail `lo .. hi` of a segment that starts at `from` is part
      of that segment and tended. */
  predicate TailTended(q: seq<Rec>, from: int, lo: int, hi: int) {
    forall k :: 0 <= k < |q| && Overlaps(q[k], lo, hi) ==> from <= q[k].start && Tended(q[k])
  }

  // ---- Acknowledgements keep a tail tended ---------------------------------

  lemma SplitTended(q: seq<Rec>, i: nat, at: int, from: int, lo: int, hi: int)
    requires Chain(q) && i < |q| && Inside(q[i], at) && TailTended(q, from, lo, hi)
    ensures TailTended(SplitAt(q, i, at), from, lo, hi)
  {
    var r := SplitAt(q, i, at);
    forall k | 0 <= k < |r| && Overlaps(r[k], lo, hi) ensures from <= r[k].start && Tended(r[k]) {
      SplitIndex(q, i, at, k);
      assert Overlaps(q[Origin(i, k)], lo, hi);
    }
  }

  lemma UpdateTended(q: seq<Rec>, i: nat, t: Rec, from: int, lo: int, hi: int)
    requires i < |q| && TailTended(q, from, lo, hi) && SameExtent(q[i], t)
    requires Overlaps(t, lo, hi) && Tended(q[i]) ==> Tended(t)
    ensures TailTended(q[i := t], from, lo, hi)
  {
    var r := q[i := t];
    forall k | 0 <= k < |r| && Overlaps(r[k], lo, hi) ensures from <= r[k].start && Tended(r[k]) {
      assert Overlaps(q[k], lo, hi);
    }
  }

  lemma {:induction false} AckTended(q: seq<Rec>, una: int, from: int, lo: int, hi: int)
    requires Chain(q) && TailTended(q, from, lo, hi)
    ensures TailTended(AckTo(q, una), from, lo, hi)
  {
    if q == [] || una <= q[0].start {
    } else {
      ChainSlice(q, 1, |q|);
      assert TailTended(q[1..], from, lo, hi);
      if q[0].end <= una {
        AckTended(q[1..], una, from, lo, hi);
      } else {
        SplitTended(q, 0, una, from, lo, hi);
        TrimIsUpper(q, una);
        var r := SplitAt(q, 0, una);
        assert forall k :: 0 <= k < |r[1..]| ==> r[1..][k] == r[k + 1];
      }
    }
  }

  lemma {:induction false} SackFromTended(q: seq<Rec>, i: nat, l: int, r: int, cap: nat, from: int, lo: int, hi: int)
    requires Chain(q) && i <= |q| && TailTended(q, from, lo, hi)
    ensures TailTended(SackFrom(q, i, l, r, cap).recs, from, lo, hi)
    decreases Remaining(q, i), if i < |q| && r < q[i].end then 1 else 0
  {
    if i == |q| || r <= q[i].start {
    } else {
      RemainingDrops(q, i, i + 1);
      var s := q[i];
      if s.flags.sacked {
        var j := NextUnsacked(q, i + 1);
        RemainingDrops(q, i, j);
        SackFromTended(q, j, l, r, cap, from, lo, hi);
      } else if r < s.end {
        if |q| < cap {
          SplitChain(q, i, r);
          SplitRemaining(q, i, r);
          SplitTended(q, i, r, from, lo, hi);
          SackFromTended(SplitAt(q, i, r), i, l, r, cap, from, lo, hi);
        }
      } else if l <= s.start {
        UpdateChain(q, i, SackRec(s));
        RemainingDrops(q[i := SackRec(s)], i, i + 1);
        UpdateTended(q, i, SackRec(s), from, lo, hi);
        SackFromTended(q[i := SackRec(s)], i + 1, l, r, cap, from, lo, hi);
      } else {
        SackFromTended(q, i + 1, l, r, cap, from, lo, hi);
      }
    }
  }

  lemma SackTended(q: seq<Rec>, left: int, right: int, cap: nat, from: int, lo: int, hi: int)
    requires Chain(q) && TailTended(q, from, lo, hi)
    ensures TailTended(Sack(q, left, right, cap).recs, from, lo, hi)
  {
    if left < right && q != [] && ClipLeft(q, left) < ClipRight(q, right) {
      var l, r := ClipLeft(q, left), ClipRight(q, right);
      var i := IndexOf(q, l);
      if CutsLeft(q, i, l) && |q| < cap {
        SplitChain(q, i, l);
        SplitTended(q, i, l, from, lo, hi);
        SackFromTended(SplitAt(q, i, l), i + 1, l, r, cap, from, lo, hi);
      } else {
        SackFromTended(q, i, l, r, cap, from, lo, hi);
      }
    }
  }

  // ---- Exactly which operations do -----------------------------------------

  /** New data stays off the tail, no loss mark on it is taken back before it is
      resent, and no SACKED mark is. */
  predicate Spares(b: Board, op: Op, cap: nat, lo: int, hi: int) {
    match op
    case Push(start, end, now, fin) => |b.recs| >= cap || hi <= start || end <= lo
    case UnmarkLost =>
      forall k :: 0 <= k < |b.recs| && Overlaps(b.recs[k], lo, hi) ==>
        !(b.recs[k].flags.lost && !b.recs[k].flags.retrans)
    case ClearSacked =>
      forall k :: 0 <= k < |b.recs| && Overlaps(b.recs[k], lo, hi) ==> !b.recs[k].flags.sacked
    case _ => true
  }

  /** Of all operations, exactly the sparing ones keep the tail tended. */
  lemma SparesIff(b: Board, op: Op, cap: nat, from: int, lo: int, hi: int)
    requires Inv(b, cap) && Allowed(b, op) && TailTended(b.recs, from, lo, hi)
    ensures TailTended(Next(b, op, cap).recs, from, lo, hi) <==> Spares(b, op, cap, lo, hi)
  {
    match op
    case Push(start, end, now, fin) => PushSparesIff(b, start, end, now, fin, cap, from, lo, hi);
    case Split(i, at) =>
      if i < |b.recs| && Inside(b.recs[i], at) && |b.recs| < cap {
        SplitTended(b.recs, i, at, from, lo, hi);
      }
    case Ack(una) => AckTended(b.recs, una, from, lo, hi);
    case SackBlock(left, right) => SackTended(b.recs, left, right, cap, from, lo, hi);
    case MarkLost(i) =>
      if i < |b.recs| {
        UpdateTended(b.recs, i, LostRec(b.recs[i]), from, lo, hi);
      }
    case Retransmit(i, now, sent) =>
      if i < |b.recs| {
        UpdateTended(b.recs, i, ResentRec(b.recs[i], now, sent, b.nextXmit), from, lo, hi);
      }
    case UnmarkLost => SweepSparesIff(b, op, cap, from, lo, hi);
    case ClearSacked => SweepSparesIff(b, op, cap, from, lo, hi);
    case MarkAllLost => LossRestores(b, cap, from, lo, hi);
  }

  lemma PushSparesIff(b: Board, start: int, end: int, now: nat, fin: bool, cap: nat, from: int, lo: int, hi: int)
    requires Inv(b, cap) && Allowed(b, Push(start, end, now, fin)) && TailTended(b.recs, from, lo, hi)
    ensures TailTended(Next(b, Push(start, end, now, fin), cap).recs, from, lo, hi) <==>
            Spares(b, Push(start, end, now, fin), cap, lo, hi)
  {
    if |b.recs| < cap {
      var r := b.recs + [NewRec(start, end, now, fin, b.nextXmit)];
      assert r[|b.recs|] == NewRec(start, end, now, fin, b.nextXmit);
      assert forall k :: 0 <= k < |b.recs| ==> r[k] == b.recs[k];
    }
  }

  lemma SweepSparesIff(b: Board, op: Op, cap: nat, from: int, lo: int, hi: int)
    requires Inv(b, cap) && (op.UnmarkLost? || op.ClearSacked?) && TailTended(b.recs, from, lo, hi)
    ensures TailTended(Next(b, op, cap).recs, from, lo, hi) <==> Spares(b, op, cap, lo, hi)
  {
    var r := EachRec(b.recs, op);
    assert Next(b, op, cap).recs == r;
    forall k | 0 <= k < |r| && Overlaps(b.recs[k], lo, hi)
      ensures Tended(r[k]) <==> if op.UnmarkLost?
                                then !(b.recs[k].flags.lost && !b.recs[k].flags.retrans)
                                else !b.recs[k].flags.sacked
    {
      assert RecOk(b.recs[k]) && Tended(b.recs[k]);
    }
    assert forall k :: 0 <= k < |r| ==> (Overlaps(r[k], lo, hi) <==> Overlaps(b.recs[k], lo, hi));
  }

  /** After a timeout's loss marking every tail is tended, whatever went before. */
  lemma LossRestores(b: Board, cap: nat, from: int, lo: int, hi: int)
    requires Inv(b, cap)
    requires forall k :: 0 <= k < |b.recs| && Overlaps(b.recs[k], lo, hi) ==> from <= b.recs[k].start
    ensures TailTended(Next(b, MarkAllLost, cap).recs, from, lo, hi)
  {
    var r := EachRec(b.recs, MarkAllLost);
    assert Next(b, MarkAllLost, cap).recs == r;
    assert forall k :: 0 <= k < |r| ==> (Overlaps(r[k], lo, hi) <==> Overlaps(b.recs[k], lo, hi));
  }

  // ---- Over runs -----------------------------------------------------------

  ghost predicate AllSpare(b: Board, ops: seq<Op>, cap: nat, lo: int, hi: int)
    requires Inv(b, cap)
    decreases |ops|
  {
    ops == [] || ((Allowed(b, ops[0]) ==> Spares(b, ops[0], cap, lo, hi))
                  && AllSpare(Next(b, ops[0], cap), ops[1..], cap, lo, hi))
  }

  /** The tail is tended after every operation of the run. */
  ghost predicate TendedThroughout(b: Board, ops: seq<Op>, cap: nat, from: int, lo: int, hi: int)
    requires Inv(b, cap)
    decreases |ops|
  {
    TailTended(b.recs, from, lo, hi)
    && (ops == [] || TendedThroughout(Next(b, ops[0], cap), ops[1..], cap, from, lo, hi))
  }

  /** A tended tail stays so throughout exactly when every operation spares it. */
  lemma {:induction false} RunTendedIff(b: Board, ops: seq<Op>, cap: nat, from: int, lo: int, hi: int)
    requires Inv(b, cap) && TailTended(b.recs, from, lo, hi)
    ensures TendedThroughout(b, ops, cap, from, lo, hi) <==> AllSpare(b, ops, cap, lo, hi)
    decreases |ops|
  {
    hide Spares, Allowed, TailTended, Inv, Next;
    if ops != [] {
      var b' := Next(b, ops[0], cap);
      NextTendedIff(b, ops[0], cap, from, lo, hi);
      if TailTended(b'.recs, from, lo, hi) {
        RunTendedIff(b', ops[1..], cap, from, lo, hi);
      }
    }
  }

  lemma NextTendedIff(b: Board, op: Op, cap: nat, from: int, lo: int, hi: int)
    requires Inv(b, cap) && TailTended(b.recs, from, lo, hi)
    ensures TailTended(Next(b, op, cap).recs, from, lo, hi) <==> (Allowed(b, op) ==> Spares(b, op, cap, lo, hi))
  {
    if Allowed(b, op) {
      SparesIff(b, op, cap, from, lo, hi);
    }
  }

  lemma {:induction false} ThroughoutIsAtEnd(b: Board, ops: seq<Op>, cap: nat, from: int, lo: int, hi: int)
    requires Inv(b, cap) && TendedThroughout(b, ops, cap, from, lo, hi)
    ensures TailTended(After(b, ops, cap).recs, from, lo, hi)
    decreases |ops|
  {
    hide TailTended, Inv, Next;
    if ops != [] {
      ThroughoutIsAtEnd(Next(b, ops[0], cap), ops[1..], cap, from, lo, hi);
    }
  }

  /** New data is never placed below `hi`. */
  predicate PushedBeyond(ops: seq<Op>, hi: int) {
    forall i :: 0 <= i < |ops| && ops[i].Push? ==> hi <= ops[i].start
  }

  /** The queue is used up or still extends over the tail. */
  predicate ReachesTail(q: seq<Rec>, hi: int) {
    q == [] || hi <= Last(q)
  }

  lemma NextReachesTail(b: Board, op: Op, cap: nat, hi: int)
    requires Inv(b, cap) && (op.Push? ==> hi <= op.start) && ReachesTail(b.recs, hi)
    ensures ReachesTail(Next(b, op, cap).recs, hi)
  {
    if Allowed(b, op) {
      match op
      case Split(i, at) =>
        if i < |b.recs| && Inside(b.recs[i], at) {
          SplitChain(b.recs, i, at);
        }
      case Ack(una) => AckChain(b.recs, una);
      case SackBlock(left, right) => SackKeepsChain(b.recs, left, right, cap);
      case _ =>
    }
  }

  lemma {:induction false} RunReachesTail(b: Board, ops: seq<Op>, cap: nat, hi: int)
    requires Inv(b, cap) && ReachesTail(b.recs, hi) && PushedBeyond(ops, hi)
    ensures ReachesTail(After(b, ops, cap).recs, hi)
    decreases |ops|
  {
    if ops != [] {
      NextReachesTail(b, ops[0], cap, hi);
      RunReachesTail(Next(b, ops[0], cap), ops[1..], cap, hi);
    }
  }

  // ---- Byte by byte --------------------------------------------------------

  /** `p` has been acknowledged, cumulatively or selectively. */
  ghost predicate Acked(q: seq<Rec>, p: int) {
    q == [] || p < First(q) || Marked(Sacked, q, p)
  }

  /** `p` lies in a record `next_lost` will offer for retransmission. */
  ghost predicate Resendable(q: seq<Rec>, p: int) {
    exists k :: 0 <= k < |q| && q[k].start <= p < q[k].end && q[k].flags.lost && !q[k].flags.retrans
  }

  /** `p` is acknowledged, up for retransmission, sent again and in flight, or behind a
      prefix that was. */
  ghost predicate CaredFor(q: seq<Rec>, p: int) {
    Acked(q, p) || Resendable(q, p) || Marked(Resent, q, p) || UnsentTail(q, p)
  }

  lemma RecordCares(q: seq<Rec>, k: nat, p: int)
    requires Chain(q) && k < |q| && q[k].start <= p < q[k].end
    ensures CaredFor(q, p) <==> Tended(q[k])
  {
    assert RecOk(q[k]);
    OnlyRecord(q, k, p);
    PatchInside(Sacked, q, k, [], p);
    PatchInside(Resent, q, k, [], p);
    if k > 0 {
      Ordered(q, 0, k);
    }
  }

  /** No other record has a say about `p`. */
  lemma OnlyRecord(q: seq<Rec>, k: nat, p: int)
    requires Chain(q) && k < |q| && q[k].start <= p < q[k].end
    ensures Resendable(q, p) <==> q[k].flags.lost && !q[k].flags.retrans
    ensures UnsentTail(q, p) <==> TailByte(q[k], p)
  {
    AllOrdered(q);
    assert forall j :: 0 <= j < |q| && q[j].start <= p < q[j].end ==> j == k;
    assert forall j :: 0 <= j < |q| && TailByte(q[j], p) ==> RecOk(q[j]) && j == k;
  }

  /** In terms of bytes: a tail is tended exactly when each of its bytes is cared for. */
  lemma TendedIff(q: seq<Rec>, from: int, lo: int, hi: int)
    requires Chain(q) && lo < hi && ReachesTail(q, hi)
    requires forall k :: 0 <= k < |q| && Overlaps(q[k], lo, hi) ==> from <= q[k].start
    ensures TailTended(q, from, lo, hi) <==> forall p :: lo <= p < hi ==> CaredFor(q, p)
  {
    hide Chain, CaredFor;
    forall p | lo <= p < hi && TailTended(q, from, lo, hi) ensures CaredFor(q, p) {
      if q == [] || p < First(q) {
        BelowIsCared(q, p);
      } else {
        var k := IndexOf(q, p);
        assert Overlaps(q[k], lo, hi);
        RecordCares(q, k, p);
      }
    }
    if forall p :: lo <= p < hi ==> CaredFor(q, p) {
      forall k | 0 <= k < |q| && Overlaps(q[k], lo, hi) ensures Tended(q[k]) {
        var p := if q[k].start < lo then lo else q[k].start;
        RecordStart(q, k);
        assert CaredFor(q, p);
        RecordCares(q, k, p);
      }
    }
  }

  lemma BelowIsCared(q: seq<Rec>, p: int)
    requires q == [] || p < First(q)
    ensures CaredFor(q, p)
  {
  }

  lemma RecordStart(q: seq<Rec>, k: nat)
    requires Chain(q) && k < |q|
    ensures q[k].start < q[k].end
  {
    assert RecOk(q[k]);
  }

  /** Every byte of the tail is cared for after every operation of the run. */
  ghost predicate CaredThroughout(b: Board, ops: seq<Op>, cap: nat, lo: int, hi: int)
    requires Inv(b, cap)
    decreases |ops|
  {
    (forall p :: lo <= p < hi ==> CaredFor(b.recs, p))
    && (ops == [] || CaredThroughout(Next(b, ops[0], cap), ops[1..], cap, lo, hi))
  }

  lemma KeepsOwn(b: Board, op: Op, cap: nat, from: int, lo: int, hi: int, k: nat)
    requires Inv(b, cap) && TailTended(b.recs, from, lo, hi) && (op.Push? ==> hi <= op.start)
    requires k < |Next(b, op, cap).recs| && Overlaps(Next(b, op, cap).recs[k], lo, hi)
    ensures from <= Next(b, op, cap).recs[k].start
  {
    if Allowed(b, op) {
      if op.UnmarkLost? || op.ClearSacked? {
        assert Next(b, op, cap).recs == EachRec(b.recs, op);
        assert Overlaps(b.recs[k], lo, hi);
      } else {
        SparesIff(b, op, cap, from, lo, hi);
      }
    }
  }

  /** So a tail's bytes are cared for throughout a run exactly when every operation of
      it spares them. */
  lemma {:induction false} CaredThroughoutIff(b: Board, ops: seq<Op>, cap: nat, from: int, lo: int, hi: int)
    requires Inv(b, cap) && lo < hi && TailTended(b.recs, from, lo, hi)
    requires ReachesTail(b.recs, hi) && PushedBeyond(ops, hi)
    ensures CaredThroughout(b, ops, cap, lo, hi) <==> AllSpare(b, ops, cap, lo, hi)
    decreases |ops|
  {
    hide Spares, Allowed, CaredFor, TailTended, Next, SentInOrder;
    TendedIff(b.recs, from, lo, hi) by {
      OwnHere(b.recs, from, lo, hi);
    }
    if ops != [] {
      var op, b' := ops[0], Next(b, ops[0], cap);
      forall k | 0 <= k < |b'.recs| && Overlaps(b'.recs[k], lo, hi) ensures from <= b'.recs[k].start {
        KeepsOwn(b, op, cap, from, lo, hi, k);
      }
      NextReachesTail(b, op, cap, hi);
      NextTendedIff(b, op, cap, from, lo, hi);
      TendedIff(b'.recs, from, lo, hi);
      if TailTended(b'.recs, from, lo, hi) {
        CaredThroughoutIff(b', ops[1..], cap, from, lo, hi);
      } else {
        assert !CaredThroughout(b', ops[1..], cap, lo, hi);
      }
    }
  }

  lemma OwnHere(q: seq<Rec>, from: int, lo: int, hi: int)
    requires TailTended(q, from, lo, hi)
    ensures forall k :: 0 <= k < |q| && Overlaps(q[k], lo, hi) ==> from <= q[k].start
  {
  }

  /** The last byte of a resent prefix is not acknowledged while the rest waits. */
  lemma PrefixUnacked(q: seq<Rec>, k: nat)
    requires Chain(q) && k < |q| && q[k].flags.partial
    ensures !Acked(q, q[k].start + q[k].sent - 1)
  {
    var x := q[k].start + q[k].sent - 1;
    assert RecOk(q[k]);
    PatchInside(Sacked, q, k, [], x);
    if k > 0 {
      Ordered(q, 0, k);
    }
  }

  // ---- Who sent a byte again -----------------------------------------------

  /** The operation puts byte `p` on the wire again. */
  predicate Sends(b: Board, op: Op, p: int) {
    op.Retransmit? && op.i < |b.recs| && Allowed(b, op) &&
    var s := b.recs[op.i];
    s.start <= p < s.start + if op.sent > 0 then op.sent else s.Len()
  }

  ghost predicate SentAgain(b: Board, ops: seq<Op>, cap: nat, p: int)
    requires Inv(b, cap)
    decreases |ops|
  {
    ops != [] && (Sends(b, ops[0], p) || SentAgain(Next(b, ops[0], cap), ops[1..], cap, p))
  }

  /** A byte counts as sent again only if it was. */
  lemma ResentWasSent(b: Board, op: Op, cap: nat, p: int)
    requires Inv(b, cap) && Marked(Resent, Next(b, op, cap).recs, p)
    ensures Marked(Resent, b.recs, p) || Sends(b, op, p)
  {
    if Allowed(b, op) {
      match op
      case Split(i, at) =>
        if i < |b.recs| && Inside(b.recs[i], at) && |b.recs| < cap {
          SplitMarks(Resent, b.recs, i, at, p);
        }
      case Ack(una) =>
        AckChain(b.recs, una);
        MarkedRange(Resent, AckTo(b.recs, una), p);
        AckMarks(Resent, b.recs, una, p);
      case SackBlock(left, right) => SackIsBounded(b.recs, left, right, cap, p);
      case Push(start, end, now, fin) =>
        var q := Next(b, op, cap).recs;
        var k :| 0 <= k < |q| && Covers(Resent, q[k], p);
        assert k < |b.recs| ==> Covers(Resent, b.recs[k], p);
      case _ => SameRecords(b, op, cap, p);
    }
  }

  /** Of the operations that leave the records' extents alone. */
  lemma SameRecords(b: Board, op: Op, cap: nat, p: int)
    requires Inv(b, cap) && Allowed(b, op) && Marked(Resent, Next(b, op, cap).recs, p)
    requires op.MarkLost? || op.MarkAllLost? || op.UnmarkLost? || op.ClearSacked? || op.Retransmit?
    ensures Marked(Resent, b.recs, p) || Sends(b, op, p)
  {
    hide Chain, SentInOrder;
    var q := Next(b, op, cap).recs;
    var k :| 0 <= k < |q| && Covers(Resent, q[k], p);
    assert Covers(Resent, b.recs[k], p) || Sends(b, op, p);
  }

  lemma {:induction false} ResentWasSentAgain(b: Board, ops: seq<Op>, cap: nat, p: int)
    requires Inv(b, cap) && Marked(Resent, After(b, ops, cap).recs, p) && !Marked(Resent, b.recs, p)
    ensures SentAgain(b, ops, cap, p)
    decreases |ops|
  {
    hide Inv, Next, Marked, Sends;
    if ops != [] {
      var b' := Next(b, ops[0], cap);
      if Marked(Resent, b'.recs, p) {
        ResentWasSent(b, ops[0], cap, p);
      } else {
        ResentWasSentAgain(b', ops[1..], cap, p);
      }
    }
  }

  // ---- No tail is stranded -------------------------------------------------

  lemma PartialIsTended(b: Board, i: nat, now: nat, sent: nat, cap: nat)
    requires Inv(b, cap) && i < |b.recs| && sent > 0
    requires Allowed(b, Retransmit(i, now, sent))
    ensures var q, s := Next(b, Retransmit(i, now, sent), cap).recs, b.recs[i];
            && TailTended(q, s.start, s.start + sent, s.end) && ReachesTail(q, s.end)
            && (forall x :: s.start + sent <= x < s.end ==> !Marked(Resent, q, x))
  {
    var s := b.recs[i];
    AllOrdered(b.recs);
    var t := ResentRec(s, now, sent, b.nextXmit);
    assert RecOk(s) && RecOk(t);
    var q := b.recs[i := t];
    forall x | s.start + sent <= x < s.end ensures !Marked(Resent, q, x) {
      UpdateMarks(Resent, b.recs, i, t, x);
    }
  }

  /** `p` waits, in one record, behind a resent prefix whose last byte is `x`. */
  ghost predicate Behind(q: seq<Rec>, x: int, p: int) {
    exists k :: 0 <= k < |q| && q[k].flags.partial && q[k].start + q[k].sent == x + 1 <= p < q[k].end
  }

  /** After any run following a partial retransmission of record `i` in which every
      operation spared the tail, and once the resent prefix is acknowledged, in
      whatever pieces: every byte that was left out is acknowledged too, is up for
      retransmission, or has itself been sent again since, alone or with a byte `x` it
      now waits behind, and that retransmission is still unacknowledged. */
  lemma TailNeverStranded(b: Board, i: nat, now: nat, sent: nat, ops: seq<Op>, cap: nat, p: int)
    requires Inv(b, cap) && i < |b.recs| && sent > 0
    requires Allowed(b, Retransmit(i, now, sent)) && PushedBeyond(ops, b.recs[i].end)
    requires b.recs[i].start + sent <= p < b.recs[i].end
    requires AllSpare(Next(b, Retransmit(i, now, sent), cap), ops, cap, b.recs[i].start + sent, b.recs[i].end)
    ensures var lo, b1 := b.recs[i].start + sent, Next(b, Retransmit(i, now, sent), cap);
            var q := After(b1, ops, cap).recs;
            (forall x :: b.recs[i].start <= x < lo ==> Acked(q, x)) ==>
              || Acked(q, p) || Resendable(q, p)
              || exists x :: lo <= x <= p && (x == p || Behind(q, x, p))
                             && !Acked(q, x) && Marked(Resent, q, x) && SentAgain(b1, ops, cap, x)
  {
    hide AllSpare, TendedThroughout, Spares, SentInOrder, SentAgain;
    var s := b.recs[i];
    var lo, hi := s.start + sent, s.end;
    var b1 := Next(b, Retransmit(i, now, sent), cap);
    PartialIsTended(b, i, now, sent, cap);
    RunTendedIff(b1, ops, cap, s.start, lo, hi);
    ThroughoutIsAtEnd(b1, ops, cap, s.start, lo, hi);
    RunReachesTail(b1, ops, cap, hi);
    var q := After(b1, ops, cap).recs;
    if (forall x :: s.start <= x < lo ==> Acked(q, x)) && !Acked(q, p) && !Resendable(q, p) {
      var x := SentByte(q, s.start, lo, hi, p);
      ResentWasSentAgain(b1, ops, cap, x);
    }
  }

  /** The byte whose retransmission an unacknowledged tail byte is covered by. */
  lemma SentByte(q: seq<Rec>, from: int, lo: int, hi: int, p: int) returns (x: int)
    requires Chain(q) && from < lo <= p < hi && ReachesTail(q, hi) && TailTended(q, from, lo, hi)
    requires forall x :: from <= x < lo ==> Acked(q, x)
    requires !Acked(q, p) && !Resendable(q, p)
    ensures lo <= x <= p && (x == p || Behind(q, x, p)) && !Acked(q, x) && Marked(Resent, q, x)
  {
    var k := IndexOf(q, p);
    assert Overlaps(q[k], lo, hi) && RecOk(q[k]);
    RecordCares(q, k, p);
    OnlyRecord(q, k, p);
    if UnsentTail(q, p) {
      x := q[k].start + q[k].sent - 1;
      PrefixUnacked(q, k);
      assert Covers(Resent, q[k], x);
    } else {
      x := p;
    }
  }

  // ---- What does strand a tail ---------------------------------------------

  /** Ten bytes sent, the first four resent and acknowledged: six are left, lost. */
  const PREFIX_ACKED: seq<Op> := [Push(0, 10, 0, false), Retransmit(0, 0, 4), Ack(4)]

  const LEFT: Rec := Rec(4, 10, 0, 1, Flags(false, true, false, true, false, false), 0)

  lemma LeftIsReached(cap: nat)
    requires cap > 0
    ensures After(Board([], 0), PREFIX_ACKED, cap) == Board([LEFT], 2)
  {
    var b0, e1, e2, e3 := Board([], 0), Push(0, 10, 0, false), Retransmit(0, 0, 4), Ack(4);
    assert PREFIX_ACKED == [e1, e2, e3] && [e1, e2, e3][1..] == [e2, e3] && [e2, e3][1..] == [e3] && [e3][1..] == [];
    var b1 := Next(b0, e1, cap);
    assert b1 == Board([NewRec(0, 10, 0, false, 0)], 1);
    var b2 := Next(b1, e2, cap);
    assert b2.recs == [Rec(0, 10, 0, 1, Flags(false, false, true, true, false, true), 4)];
    assert Next(b2, e3, cap) == Board([LEFT], 2);
  }

  lemma OnlyByte(s: Rec, p: int)
    requires RecOk(s) && s.start <= p < s.end
    ensures CaredFor([s], p) <==> Tended(s)
    ensures Acked([s], p) <==> s.flags.sacked
  {
    RecordCares([s], 0, p);
    PatchInside(Sacked, [s], 0, [], p);
  }

  /** Taking back the loss marks then strands them: in flight only as first sent. */
  lemma UnmarkStrands(cap: nat)
    requires cap > 0
    ensures var b := After(Board([], 0), PREFIX_ACKED, cap);
            && (forall x :: 0 <= x < 4 ==> Acked(b.recs, x)) && CaredFor(b.recs, 4)
            && !CaredFor(Next(b, UnmarkLost, cap).recs, 4)
  {
    LeftIsReached(cap);
    var b := Board([LEFT], 2);
    assert Next(b, UnmarkLost, cap).recs == [UnmarkRec(LEFT)];
    OnlyByte(LEFT, 4);
    OnlyByte(UnmarkRec(LEFT), 4);
  }

  lemma SackLeft(cap: nat)
    ensures Sack([LEFT], 4, 10, cap).recs == [SackRec(LEFT)]
  {
    var q, r := [LEFT], [SackRec(LEFT)];
    assert q[0 := SackRec(LEFT)] == r;
    UpdateChain(q, 0, SackRec(LEFT));
    assert SackFrom(r, 1, 4, 10, cap).recs == r;
    assert SackFrom(q, 0, 4, 10, cap).recs == r;
    assert IndexOf(q, 4) == 0 && ClipLeft(q, 4) == 4 && ClipRight(q, 10) == 10;
  }

  /** So does forgetting that they were SACKED, until a timeout marks them lost. */
  lemma ClearStrands(cap: nat)
    requires cap > 0
    ensures var b := Next(After(Board([], 0), PREFIX_ACKED, cap), SackBlock(4, 10), cap);
            var c := Next(b, ClearSacked, cap);
            Acked(b.recs, 4) && !CaredFor(c.recs, 4) && CaredFor(Next(c, MarkAllLost, cap).recs, 4)
  {
    LeftIsReached(cap);
    SackLeft(cap);
    var b := Next(Board([LEFT], 2), SackBlock(4, 10), cap);
    var c := Next(b, ClearSacked, cap);
    assert c.recs == [UnsackRec(SackRec(LEFT))];
    var d := Next(c, MarkAllLost, cap);
    assert d.recs == [LostRec(UnsackRec(SackRec(LEFT)))];
    OnlyByte(SackRec(LEFT), 4);
    OnlyByte(c.recs[0], 4);
    OnlyByte(d.recs[0], 4);
  }
}
