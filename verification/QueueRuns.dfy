/** Runs of the retransmission queue: any interleaving of its operations, each
    issued as its caller may, and what every such run keeps. */
module QueueRuns {
  import opened Scoreboard
  import opened Sacking

  /** The queue and the number its next (re)transmission will get. */
  datatype Board = Board(recs: seq<Rec>, nextXmit: nat)

  datatype Op =
    | Push(start: int, end: int, now: nat, fin: bool)
    | Split(i: nat, at: int)
    | Ack(una: int)
    | SackBlock(left: int, right: int)
    | MarkLost(i: nat)
    | MarkAllLost
    | UnmarkLost
    | ClearSacked
    | Retransmit(i: nat, now: nat, sent: nat)

  /** What callers owe: new data continues the queue and follows no FIN; only an
      un-SACKED segment is retransmitted, and a partial prefix (`sent` > 0) lies
      strictly inside its payload. */
  predicate Allowed(b: Board, op: Op) {
    match op
    case Push(start, end, now, fin) =>
      && start < end
      && (b.recs != [] ==> Last(b.recs) == start && !b.recs[|b.recs| - 1].flags.fin)
    case Retransmit(i, now, sent) =>
      i < |b.recs| ==>
        && !b.recs[i].flags.sacked
        && (sent > 0 ==> sent < b.recs[i].Payload())
    case _ => true
  }

  function NewRec(start: int, end: int, now: nat, fin: bool, xmit: nat): Rec {
    Rec(start, end, now, xmit, Flags(false, false, false, false, fin, false), 0)
  }

  function EachRec(q: seq<Rec>, op: Op): (r: seq<Rec>)
    ensures |r| == |q|
    ensures forall i :: 0 <= i < |q| ==> r[i] == Rewrite(q[i], op)
  {
    seq(|q|, i requires 0 <= i < |q| => Rewrite(q[i], op))
  }

  /** What the three whole-queue sweeps do to one record. */
  function Rewrite(s: Rec, op: Op): Rec {
    match op
    case MarkAllLost => LostRec(s)
    case UnmarkLost => UnmarkRec(s)
    case ClearSacked => UnsackRec(s)
    case _ => s
  }

  function Step(b: Board, op: Op, cap: nat): Board
    requires Chain(b.recs)
  {
    match op
    case Push(start, end, now, fin) =>
      if |b.recs| >= cap then b
      else Board(b.recs + [NewRec(start, end, now, fin, b.nextXmit)], b.nextXmit + 1)
    case Split(i, at) =>
      if i < |b.recs| && Inside(b.recs[i], at) && |b.recs| < cap
      then b.(recs := SplitAt(b.recs, i, at)) else b
    case Ack(una) => b.(recs := AckTo(b.recs, una))
    case SackBlock(left, right) => b.(recs := Sack(b.recs, left, right, cap).recs)
    case MarkLost(i) =>
      if i < |b.recs| then b.(recs := b.recs[i := LostRec(b.recs[i])]) else b
    case Retransmit(i, now, sent) =>
      if i < |b.recs|
      then Board(b.recs[i := ResentRec(b.recs[i], now, sent, b.nextXmit)], b.nextXmit + 1)
      else b
    case _ => b.(recs := EachRec(b.recs, op))
  }

  // ---- Transmission order --------------------------------------------------

  /** When a record was last sent, and how far it reaches. */
  datatype Mile = Mile(xmit: nat, end: int)

  function MileOf(s: Rec): Mile {
    Mile(s.xmit, s.end)
  }

  /** `a` was sent after `b`: a later transmission, or further on in the same one. */
  predicate Later(a: Mile, b: Mile) {
    a.xmit > b.xmit || (a.xmit == b.xmit && a.end > b.end)
  }

  /** A record never retransmitted was sent before everything above it. */
  predicate SentInOrder(q: seq<Rec>, next: nat) {
    && (forall i :: 0 <= i < |q| ==> q[i].xmit < next)
    && (forall i, j :: 0 <= i < j < |q| && !q[i].flags.ever ==> Later(MileOf(q[j]), MileOf(q[i])))
  }

  predicate SameSending(s: Rec, t: Rec) {
    s.xmit == t.xmit && s.end == t.end && (s.flags.ever ==> t.flags.ever)
  }

  lemma OrderKept(q: seq<Rec>, r: seq<Rec>, next: nat)
    requires SentInOrder(q, next) && |r| == |q|
    requires forall i :: 0 <= i < |q| ==> SameSending(q[i], r[i])
    ensures SentInOrder(r, next)
  {
  }

  lemma OrderSuffix(q: seq<Rec>, next: nat)
    requires q != [] && SentInOrder(q, next)
    ensures SentInOrder(q[1..], next)
  {
    var t := q[1..];
    assert forall i :: 0 <= i < |t| ==> t[i] == q[i + 1];
  }

  lemma SplitOrder(q: seq<Rec>, i: nat, at: int, next: nat)
    requires Chain(q) && i < |q| && Inside(q[i], at) && SentInOrder(q, next)
    ensures SentInOrder(SplitAt(q, i, at), next)
  {
    var r := SplitAt(q, i, at);
    AllOrdered(q);
    forall k | 0 <= k < |r|
      ensures r[k].xmit == q[Origin(i, k)].xmit && r[k].flags.ever == q[Origin(i, k)].flags.ever
      ensures r[k].end == if k == i then at else q[Origin(i, k)].end
    {
      SplitIndex(q, i, at, k);
    }
  }

  /** The record that entry `k` of a split at record `i` came from. */
  function Origin(i: nat, k: nat): nat {
    if k <= i then k else k - 1
  }

  lemma SplitIndex(q: seq<Rec>, i: nat, at: int, k: nat)
    requires i < |q| && k <= |q|
    ensures |SplitAt(q, i, at)| == |q| + 1
    ensures SplitAt(q, i, at)[k] ==
            if k == i then LowerHalf(q[i], at)
            else if k == i + 1 then UpperHalf(q[i], at)
            else q[Origin(i, k)]
  {
  }

  lemma {:induction false} AckOrder(q: seq<Rec>, una: int, next: nat)
    requires Chain(q) && SentInOrder(q, next)
    ensures SentInOrder(AckTo(q, una), next)
  {
    if q == [] || una <= q[0].start {
    } else if q[0].end <= una {
      ChainSlice(q, 1, |q|);
      OrderSuffix(q, next);
      AckOrder(q[1..], una, next);
    } else {
      OrderKept(q, [UpperHalf(q[0], una)] + q[1..], next);
    }
  }

  lemma {:induction false} SackFromOrder(q: seq<Rec>, i: nat, l: int, r: int, cap: nat, next: nat)
    requires Chain(q) && i <= |q| && SentInOrder(q, next)
    ensures SentInOrder(SackFrom(q, i, l, r, cap).recs, next)
    decreases Remaining(q, i), if i < |q| && r < q[i].end then 1 else 0
  {
    if i == |q| || r <= q[i].start {
    } else {
      RemainingDrops(q, i, i + 1);
      var s := q[i];
      if s.flags.sacked {
        var j := NextUnsacked(q, i + 1);
        RemainingDrops(q, i, j);
        SackFromOrder(q, j, l, r, cap, next);
      } else if r < s.end {
        if |q| < cap {
          SplitChain(q, i, r);
          SplitRemaining(q, i, r);
          SplitOrder(q, i, r, next);
          SackFromOrder(SplitAt(q, i, r), i, l, r, cap, next);
        }
      } else if l <= s.start {
        UpdateChain(q, i, SackRec(s));
        RemainingDrops(q[i := SackRec(s)], i, i + 1);
        OrderKept(q, q[i := SackRec(s)], next);
        SackFromOrder(q[i := SackRec(s)], i + 1, l, r, cap, next);
      } else {
        SackFromOrder(q, i + 1, l, r, cap, next);
      }
    }
  }

  lemma SackOrder(q: seq<Rec>, left: int, right: int, cap: nat, next: nat)
    requires Chain(q) && SentInOrder(q, next)
    ensures SentInOrder(Sack(q, left, right, cap).recs, next)
  {
    if left < right && q != [] && ClipLeft(q, left) < ClipRight(q, right) {
      var l, r := ClipLeft(q, left), ClipRight(q, right);
      var i := IndexOf(q, l);
      if CutsLeft(q, i, l) && |q| < cap {
        SplitChain(q, i, l);
        SplitOrder(q, i, l, next);
        SackFromOrder(SplitAt(q, i, l), i + 1, l, r, cap, next);
      } else {
        SackFromOrder(q, i, l, r, cap, next);
      }
    }
  }

  // ---- The invariant over runs ---------------------------------------------

  predicate Inv(b: Board, cap: nat) {
    && Chain(b.recs)
    && |b.recs| <= cap
    && SentInOrder(b.recs, b.nextXmit)
  }

  lemma SweepChain(q: seq<Rec>, op: Op)
    requires Chain(q)
    ensures Chain(EachRec(q, op))
  {
    var r := EachRec(q, op);
    forall i | 0 <= i < |q| ensures RecOk(r[i]) && SameExtent(q[i], r[i]) {
      assert RecOk(q[i]);
    }
  }

  lemma PushKeeps(b: Board, start: int, end: int, now: nat, fin: bool, cap: nat)
    requires Inv(b, cap) && Allowed(b, Push(start, end, now, fin)) && |b.recs| < cap
    ensures Inv(Step(b, Push(start, end, now, fin), cap), cap)
  {
    var s := NewRec(start, end, now, fin, b.nextXmit);
    assert Chain([s]);
    ChainAppend(b.recs, [s]);
    var r := b.recs + [s];
    assert forall i :: 0 <= i < |b.recs| ==> r[i] == b.recs[i];
  }

  lemma RetransmitKeeps(b: Board, i: nat, now: nat, sent: nat, cap: nat)
    requires Inv(b, cap) && Allowed(b, Retransmit(i, now, sent)) && i < |b.recs|
    ensures Inv(Step(b, Retransmit(i, now, sent), cap), cap)
  {
    var t := ResentRec(b.recs[i], now, sent, b.nextXmit);
    assert RecOk(b.recs[i]);
    UpdateChain(b.recs, i, t);
  }

  /** Every operation keeps the invariant. */
  lemma StepKeeps(b: Board, op: Op, cap: nat)
    requires Inv(b, cap) && Allowed(b, op)
    ensures Inv(Step(b, op, cap), cap)
  {
    match op
    case Push(start, end, now, fin) =>
      if |b.recs| < cap {
        PushKeeps(b, start, end, now, fin, cap);
      }
    case Split(i, at) =>
      if i < |b.recs| && Inside(b.recs[i], at) && |b.recs| < cap {
        SplitChain(b.recs, i, at);
        SplitOrder(b.recs, i, at, b.nextXmit);
      }
    case Ack(una) =>
      AckChain(b.recs, una);
      AckOrder(b.recs, una, b.nextXmit);
    case SackBlock(left, right) =>
      SackKeepsChain(b.recs, left, right, cap);
      SackOrder(b.recs, left, right, cap, b.nextXmit);
    case MarkLost(i) =>
      if i < |b.recs| {
        assert RecOk(b.recs[i]);
        UpdateChain(b.recs, i, LostRec(b.recs[i]));
        OrderKept(b.recs, b.recs[i := LostRec(b.recs[i])], b.nextXmit);
      }
    case Retransmit(i, now, sent) =>
      if i < |b.recs| {
        RetransmitKeeps(b, i, now, sent, cap);
      }
    case _ =>
      SweepChain(b.recs, op);
      OrderKept(b.recs, EachRec(b.recs, op), b.nextXmit);
  }

  /** One operation of a run; one its caller may not issue is never issued. */
  function Next(b: Board, op: Op, cap: nat): (r: Board)
    requires Inv(b, cap)
    ensures Inv(r, cap)
  {
    if Allowed(b, op) then (StepKeeps(b, op, cap); Step(b, op, cap)) else b
  }

  /** The state after the operations `ops`, issued in turn: whatever they are,
      the queue stays a chain within its capacity, sent in order. */
  function After(b: Board, ops: seq<Op>, cap: nat): (r: Board)
    requires Inv(b, cap)
    ensures Inv(r, cap)
    decreases |ops|
  {
    if ops == [] then b else After(Next(b, ops[0], cap), ops[1..], cap)
  }

  // ---- In-flight accounting ------------------------------------------------

  ghost function Span(q: seq<Rec>): set<int> {
    if q == [] then {} else Interval(First(q), Last(q))
  }

  /** `pipe` with exact subtraction. */
  function Pipe(q: seq<Rec>, outstanding: int): int {
    outstanding - Total(Sacked, q) - Total(Lost, q) + Total(Resent, q)
  }

  lemma BytesInSpan(m: Mark, q: seq<Rec>)
    requires Chain(q)
    ensures Bytes(m, q) <= Span(q)
  {
    forall p | p in Bytes(m, q) ensures p in Span(q) {
      BytesAreMarked(m, q, p);
      MarkedRange(m, q, p);
    }
  }

  /** `pipe` counts each byte neither SACKED nor lost once, and each resent byte
      still in flight once more, as section 4 of RFC 6675 defines it; neither
      subtraction it makes can go below zero. */
  lemma PipeIsByteSum(q: seq<Rec>)
    requires Chain(q) && q != []
    ensures var n := Last(q) - First(q);
            && Pipe(q, n) == |Span(q) - Bytes(Sacked, q) - Bytes(Lost, q)| + |Bytes(Resent, q)|
            && 0 <= Total(Sacked, q) && 0 <= Total(Lost, q) && 0 <= Total(Resent, q) <= n
            && Total(Sacked, q) + Total(Lost, q) <= n
  {
    var S, L, R := Bytes(Sacked, q), Bytes(Lost, q), Bytes(Resent, q);
    NonEmptySpan(q);
    forall m: Mark ensures Bytes(m, q) <= Span(q) && Total(m, q) == |Bytes(m, q)| {
      BytesInSpan(m, q);
      TotalIsSize(m, q);
    }
    forall p | p in S ensures p !in L {
      BytesAreMarked(Sacked, q, p);
      Exclusive(q, p);
      BytesAreMarked(Lost, q, p);
    }
    assert |S + L| == |S| + |L|;
    assert Span(q) - S - L == Span(q) - (S + L);
    SubsetSize(S + L, Span(q));
    SubsetSize(R, Span(q));
  }

  lemma SubsetSize(a: set<int>, b: set<int>)
    requires a <= b
    ensures |a| <= |b| && |b - a| == |b| - |a|
  {
    assert b == a + (b - a);
  }
}
