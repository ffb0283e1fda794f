/** When each byte of the queue was last sent, and as which transmission. */
module Sendings {
  import opened Options
  import opened Scoreboard
  import opened Sacking
  import opened QueueRuns

  /** A transmission: its time, its number, and whether it was a retransmission. */
  datatype Sending = Sending(ts: nat, xmit: nat, again: bool)

  predicate Holds(s: Rec, p: int) {
    s.start <= p < s.end
  }

  /** The operation is carried out and sends something. */
  predicate Transmits(b: Board, op: Op, cap: nat) {
    Allowed(b, op) && ((op.Push? && |b.recs| < cap) || (op.Retransmit? && op.i < |b.recs|))
  }

  /** It is issued for the record that holds `p`. */
  predicate IssuedFor(b: Board, op: Op, cap: nat, p: int) {
    Transmits(b, op, cap) &&
    if op.Push? then op.start <= p < op.end else Holds(b.recs[op.i], p)
  }

  /** The state after `ops`, from the empty queue. */
  function Run(ops: seq<Op>, cap: nat): (b: Board)
    ensures Inv(b, cap)
  {
    After(Board([], 0), ops, cap)
  }

  /** How many transmissions a run makes. */
  function Transmissions(ops: seq<Op>, cap: nat): nat {
    if ops == [] then 0
    else
      var was, op := ops[..|ops| - 1], ops[|ops| - 1];
      Transmissions(was, cap) + if Transmits(Run(was, cap), op, cap) then 1 else 0
  }

  /** The last transmission a run issued for the record then holding `p`. */
  function LastSending(ops: seq<Op>, cap: nat, p: int): Option<Sending> {
    if ops == [] then None
    else
      var was, op := ops[..|ops| - 1], ops[|ops| - 1];
      if IssuedFor(Run(was, cap), op, cap, p)
      then Some(Sending(op.now, Transmissions(was, cap), op.Retransmit?))
      else LastSending(was, cap, p)
  }

  // ---- Records only pass on what they were sent as -------------------------

  /** `t` is a part of `s`, sent as `s` was; a FIN stays at its end. */
  predicate PartOf(t: Rec, s: Rec) {
    && s.start <= t.start && t.end <= s.end && (t.flags.fin <==> s.flags.fin && t.end == s.end)
    && t.ts == s.ts && t.xmit == s.xmit && t.flags.ever == s.flags.ever
  }

  ghost predicate HasWhole(t: Rec, q: seq<Rec>) {
    exists i :: 0 <= i < |q| && PartOf(t, q[i])
  }

  /** Every record of `r` is a part of one of `q`. */
  ghost predicate Parts(r: seq<Rec>, q: seq<Rec>) {
    forall k :: 0 <= k < |r| ==> HasWhole(r[k], q)
  }

  lemma PartsTrans(a: seq<Rec>, b: seq<Rec>, c: seq<Rec>)
    requires Parts(a, b) && Parts(b, c)
    ensures Parts(a, c)
  {
    forall k | 0 <= k < |a| ensures HasWhole(a[k], c) {
      var i :| 0 <= i < |b| && PartOf(a[k], b[i]);
      assert HasWhole(b[i], c);
      var j :| 0 <= j < |c| && PartOf(b[i], c[j]);
      assert PartOf(a[k], c[j]);
    }
  }

  lemma RewriteParts(q: seq<Rec>, r: seq<Rec>)
    requires |r| == |q| && forall i :: 0 <= i < |q| ==> PartOf(r[i], q[i])
    ensures Parts(r, q)
  {
  }

  lemma SplitParts(q: seq<Rec>, i: nat, at: int)
    requires i < |q| && Inside(q[i], at)
    ensures Parts(SplitAt(q, i, at), q)
  {
    var r := SplitAt(q, i, at);
    forall k | 0 <= k < |r| ensures HasWhole(r[k], q) {
      SplitIndex(q, i, at, k);
      assert PartOf(r[k], q[Origin(i, k)]);
    }
  }

  lemma {:induction false} AckParts(q: seq<Rec>, una: int)
    ensures Parts(AckTo(q, una), q)
  {
    if q == [] || una <= q[0].start {
      RewriteParts(q, q);
    } else if q[0].end <= una {
      AckParts(q[1..], una);
      TailParts(q);
      PartsTrans(AckTo(q, una), q[1..], q);
    } else {
      RewriteParts(q, [UpperHalf(q[0], una)] + q[1..]);
    }
  }

  lemma TailParts(q: seq<Rec>)
    requires q != []
    ensures Parts(q[1..], q)
  {
    forall k | 0 <= k < |q[1..]| ensures HasWhole(q[1..][k], q) {
      assert PartOf(q[1..][k], q[k + 1]);
    }
  }

  lemma {:induction false} SackFromParts(q: seq<Rec>, i: nat, l: int, r: int, cap: nat)
    requires Chain(q) && i <= |q|
    ensures Parts(SackFrom(q, i, l, r, cap).recs, q)
    decreases Remaining(q, i), if i < |q| && r < q[i].end then 1 else 0
  {
    hide Parts;
    var o := SackFrom(q, i, l, r, cap).recs;
    if i == |q| || r <= q[i].start {
      RewriteParts(q, q);
    } else {
      RemainingDrops(q, i, i + 1);
      var s := q[i];
      if s.flags.sacked {
        var j := NextUnsacked(q, i + 1);
        RemainingDrops(q, i, j);
        SackFromParts(q, j, l, r, cap);
      } else if r < s.end {
        if |q| < cap {
          SplitChain(q, i, r);
          SplitRemaining(q, i, r);
          SplitParts(q, i, r);
          SackFromParts(SplitAt(q, i, r), i, l, r, cap);
          PartsTrans(o, SplitAt(q, i, r), q);
        } else {
          RewriteParts(q, q);
        }
      } else if l <= s.start {
        UpdateChain(q, i, SackRec(s));
        RemainingDrops(q[i := SackRec(s)], i, i + 1);
        RewriteParts(q, q[i := SackRec(s)]);
        SackFromParts(q[i := SackRec(s)], i + 1, l, r, cap);
        PartsTrans(o, q[i := SackRec(s)], q);
      } else {
        SackFromParts(q, i + 1, l, r, cap);
      }
    }
  }

  lemma SackParts(q: seq<Rec>, left: int, right: int, cap: nat)
    requires Chain(q)
    ensures Parts(Sack(q, left, right, cap).recs, q)
  {
    hide Parts;
    RewriteParts(q, q);
    if left < right && q != [] && ClipLeft(q, left) < ClipRight(q, right) {
      var l, r := ClipLeft(q, left), ClipRight(q, right);
      var i := IndexOf(q, l);
      if CutsLeft(q, i, l) && |q| < cap {
        SplitChain(q, i, l);
        SplitParts(q, i, l);
        SackFromParts(SplitAt(q, i, l), i + 1, l, r, cap);
        PartsTrans(Sack(q, left, right, cap).recs, SplitAt(q, i, l), q);
      } else {
        SackFromParts(q, i, l, r, cap);
      }
    }
  }

  /** An operation that sends nothing only splits, trims and marks. */
  lemma QuietParts(b: Board, op: Op, cap: nat)
    requires Inv(b, cap) && !Transmits(b, op, cap)
    ensures Parts(Next(b, op, cap).recs, b.recs) && Next(b, op, cap).nextXmit == b.nextXmit
  {
    hide Parts, SentInOrder;
    RewriteParts(b.recs, b.recs);
    if Allowed(b, op) {
      match op
      case Split(i, at) =>
        if i < |b.recs| && Inside(b.recs[i], at) {
          SplitParts(b.recs, i, at);
        }
      case Ack(una) => AckParts(b.recs, una);
      case SackBlock(left, right) => SackParts(b.recs, left, right, cap);
      case MarkLost(i) =>
        if i < |b.recs| {
          RewriteParts(b.recs, b.recs[i := LostRec(b.recs[i])]);
        }
      case MarkAllLost => RewriteParts(b.recs, EachRec(b.recs, op));
      case UnmarkLost => RewriteParts(b.recs, EachRec(b.recs, op));
      case ClearSacked => RewriteParts(b.recs, EachRec(b.recs, op));
      case _ =>
    }
  }

  // ---- Over a run ----------------------------------------------------------

  predicate SentAs(s: Rec, x: Sending) {
    s.ts == x.ts && s.xmit == x.xmit && s.flags.ever == x.again
  }

  /** The record that held `p`, if any still does, was sent as the one before it,
      unless the operation was issued for it. */
  lemma SendingKept(b: Board, op: Op, cap: nat, p: int, k: nat) returns (i: nat)
    requires Inv(b, cap) && !IssuedFor(b, op, cap, p)
    requires k < |Next(b, op, cap).recs| && Holds(Next(b, op, cap).recs[k], p)
    ensures i < |b.recs| && Holds(b.recs[i], p)
    ensures PartOf(Next(b, op, cap).recs[k], b.recs[i])
  {
    var t := Next(b, op, cap).recs[k];
    if Transmits(b, op, cap) {
      i := k;
    } else {
      QuietParts(b, op, cap);
      assert HasWhole(t, b.recs);
      i :| 0 <= i < |b.recs| && PartOf(t, b.recs[i]);
    }
  }

  lemma {:induction false} AfterLast(b: Board, ops: seq<Op>, cap: nat)
    requires Inv(b, cap) && ops != []
    ensures After(b, ops, cap) == Next(After(b, ops[..|ops| - 1], cap), ops[|ops| - 1], cap)
    decreases |ops|
  {
    hide Next, Inv;
    if |ops| > 1 {
      assert ops[1..][..|ops| - 2] == ops[..|ops| - 1][1..];
      AfterLast(Next(b, ops[0], cap), ops[1..], cap);
    } else {
      assert ops[1..] == [] && ops[..0] == [];
    }
  }

  lemma {:induction false} Numbered(ops: seq<Op>, cap: nat)
    ensures Run(ops, cap).nextXmit == Transmissions(ops, cap)
  {
    if ops != [] {
      var was, op := ops[..|ops| - 1], ops[|ops| - 1];
      Numbered(was, cap);
      AfterLast(Board([], 0), ops, cap);
      if !Transmits(Run(was, cap), op, cap) {
        QuietParts(Run(was, cap), op, cap);
      }
    }
  }

  /** In every run, through all splitting, marking and trimming: the record that holds
      `p` bears the time and number of the last transmission issued for it, and shows
      whether that was a retransmission. */
  lemma {:induction false} RecordsLastSending(ops: seq<Op>, cap: nat, p: int, k: nat)
    requires k < |Run(ops, cap).recs| && Holds(Run(ops, cap).recs[k], p)
    ensures LastSending(ops, cap, p).Some? && SentAs(Run(ops, cap).recs[k], LastSending(ops, cap, p).value)
    decreases |ops|
  {
    if ops != [] {
      hide Inv, Next, LastSending, Transmissions;
      var was, op := ops[..|ops| - 1], ops[|ops| - 1];
      var b := Run(was, cap);
      AfterLast(Board([], 0), ops, cap);
      if IssuedFor(b, op, cap, p) {
        Numbered(was, cap);
        JustSent(b, op, cap, p, k);
        LastIs(ops, cap, p);
      } else {
        var i := SendingKept(b, op, cap, p, k);
        RecordsLastSending(was, cap, p, i);
        LastIs(ops, cap, p);
      }
    }
  }

  lemma LastIs(ops: seq<Op>, cap: nat, p: int)
    requires ops != []
    ensures var was, op := ops[..|ops| - 1], ops[|ops| - 1];
            LastSending(ops, cap, p) ==
            if IssuedFor(Run(was, cap), op, cap, p)
            then Some(Sending(op.now, Transmissions(was, cap), op.Retransmit?))
            else LastSending(was, cap, p)
  {
  }

  lemma JustSent(b: Board, op: Op, cap: nat, p: int, k: nat)
    requires Inv(b, cap) && IssuedFor(b, op, cap, p)
    requires k < |Next(b, op, cap).recs| && Holds(Next(b, op, cap).recs[k], p)
    ensures SentAs(Next(b, op, cap).recs[k], Sending(op.now, b.nextXmit, op.Retransmit?))
  {
    AllOrdered(b.recs);
  }

  // ---- Where a record comes from -------------------------------------------

  /** The last operation that queued `p` as new data. */
  function LastPush(ops: seq<Op>, cap: nat, p: int): Option<Op> {
    if ops == [] then None
    else
      var was, op := ops[..|ops| - 1], ops[|ops| - 1];
      if op.Push? && IssuedFor(Run(was, cap), op, cap, p) then Some(op) else LastPush(was, cap, p)
  }

  /** `s` is a part of what `op` queued, with the FIN exactly if it reaches it. */
  predicate CameFrom(s: Rec, op: Op) {
    op.Push? && op.start <= s.start && s.end <= op.end && (s.flags.fin <==> op.fin && s.end == op.end)
  }

  lemma OriginKept(b: Board, op: Op, cap: nat, p: int, k: nat) returns (i: nat)
    requires Inv(b, cap) && !(op.Push? && IssuedFor(b, op, cap, p))
    requires k < |Next(b, op, cap).recs| && Holds(Next(b, op, cap).recs[k], p)
    ensures i < |b.recs| && Holds(b.recs[i], p)
    ensures forall x :: CameFrom(b.recs[i], x) ==> CameFrom(Next(b, op, cap).recs[k], x)
  {
    if op.Retransmit? && Transmits(b, op, cap) {
      i := k;
    } else {
      i := SendingKept(b, op, cap, p, k);
    }
  }

  lemma JustPushed(b: Board, op: Op, cap: nat, p: int, k: nat)
    requires Inv(b, cap) && op.Push? && IssuedFor(b, op, cap, p)
    requires k < |Next(b, op, cap).recs| && Holds(Next(b, op, cap).recs[k], p)
    ensures CameFrom(Next(b, op, cap).recs[k], op)
  {
    AllOrdered(b.recs);
  }

  /** In every run a record is a part of the segment that last queued its bytes, and
      holds a FIN exactly if it reaches that segment's end and the segment had one. */
  lemma {:induction false} RecordsLastPush(ops: seq<Op>, cap: nat, p: int, k: nat)
    requires k < |Run(ops, cap).recs| && Holds(Run(ops, cap).recs[k], p)
    ensures LastPush(ops, cap, p).Some? && CameFrom(Run(ops, cap).recs[k], LastPush(ops, cap, p).value)
    decreases |ops|
  {
    if ops != [] {
      hide Inv, Next;
      var was, op := ops[..|ops| - 1], ops[|ops| - 1];
      var b := Run(was, cap);
      AfterLast(Board([], 0), ops, cap);
      if op.Push? && IssuedFor(b, op, cap, p) {
        JustPushed(b, op, cap, p, k);
      } else {
        var i := OriginKept(b, op, cap, p, k);
        RecordsLastPush(was, cap, p, i);
      }
    }
  }
}
