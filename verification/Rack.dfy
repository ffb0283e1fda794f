/** RACK loss detection: which records the scan condemns and when to look again. */
module Rack {
  import opened Options
  import opened Serial
  import opened Scoreboard
  import opened Sacking
  import opened QueueRuns
  import opened RtxQueue
  import WinMin

  /** `m` was sent after `s`. */
  predicate After(m: Mile, s: Rec) {
    Later(m, MileOf(s))
  }

  /** `sent_after` on 32-bit transmission and sequence numbers. */
  predicate SentAfter(x1: u32, seq1: u32, x2: u32, seq2: u32) {
    var d := WSub(x1, x2);
    0 < d < HALF || (d == 0 && SeqGt(seq1, seq2))
  }

  /** Numbers close enough that the 32-bit order is the true one: fewer than 2^31
      transmissions apart, and parts of one transmission fewer than 2^31 bytes. */
  predicate Comparable(a: Mile, b: Mile) {
    && -HALF < a.xmit - b.xmit < HALF
    && (a.xmit == b.xmit ==> -HALF < a.end - b.end < HALF)
  }

  lemma SentAfterIsLater(a: Mile, b: Mile)
    requires Comparable(a, b)
    ensures SentAfter(Wire(a.xmit), Wire(a.end), Wire(b.xmit), Wire(b.end)) <==> Later(a, b)
  {
    SerialOrder(a.xmit, b.xmit);
    if a.xmit == b.xmit {
      SerialOrder(a.end, b.end);
    }
  }

  // ---- The full scan -------------------------------------------------------

  /** A record RACK may condemn: unacknowledged, not already waiting to be
      resent, and sent before a delivered one. */
  predicate Candidate(m: Mile, s: Rec) {
    !s.flags.sacked && !Resend(s) && After(m, s)
  }

  /** When the candidate `s` counts as lost, clamped to the clock's range. */
  function Deadline(s: Rec, thresh: nat): nat {
    if s.ts + thresh <= U64_MAX then s.ts + thresh else U64_MAX
  }

  predicate Due(m: Mile, s: Rec, now: nat, thresh: nat) {
    Candidate(m, s) && Deadline(s, thresh) <= now
  }

  function Judge(m: Mile, s: Rec, now: nat, thresh: nat): Rec {
    if Due(m, s, now, thresh) then LostRec(s) else s
  }

  /** Every record judged, one by one. */
  function FullScan(m: Mile, q: seq<Rec>, now: nat, thresh: nat): (r: seq<Rec>)
    ensures |r| == |q|
    ensures forall i :: 0 <= i < |q| ==> r[i] == Judge(m, q[i], now, thresh)
  {
    seq(|q|, i requires 0 <= i < |q| => Judge(m, q[i], now, thresh))
  }

  function Delay(m: Mile, s: Rec, now: nat, thresh: nat): nat {
    if Candidate(m, s) && now < Deadline(s, thresh) then Deadline(s, thresh) - now else 0
  }

  /** The longest delay of any candidate below index `i` still inside the
      reordering window. */
  function TimeoutBelow(m: Mile, q: seq<Rec>, now: nat, thresh: nat, i: nat): nat
    requires i <= |q|
  {
    if i == 0 then 0
    else Max(TimeoutBelow(m, q, now, thresh, i - 1), Delay(m, q[i - 1], now, thresh))
  }

  function FullTimeout(m: Mile, q: seq<Rec>, now: nat, thresh: nat): nat {
    TimeoutBelow(m, q, now, thresh, |q|)
  }

  predicate DueBelow(m: Mile, q: seq<Rec>, now: nat, thresh: nat, i: nat)
    requires i <= |q|
  {
    exists k :: 0 <= k < i && Due(m, q[k], now, thresh)
  }

  predicate AnyDue(m: Mile, q: seq<Rec>, now: nat, thresh: nat) {
    DueBelow(m, q, now, thresh, |q|)
  }

  // ---- Why the scan may skip and stop early --------------------------------

  /** Past a never-retransmitted record not sent before `m`, nothing is a candidate. */
  lemma NothingAbove(m: Mile, q: seq<Rec>, next: nat, i: nat)
    requires SentInOrder(q, next) && i < |q|
    requires !q[i].flags.ever && !After(m, q[i])
    ensures forall j :: i <= j < |q| ==> !Candidate(m, q[j])
  {
  }

  /** The part of a scan up to `i`: judged below, untouched from there on. */
  function Judged(m: Mile, q: seq<Rec>, now: nat, thresh: nat, i: nat): seq<Rec>
    requires i <= |q|
  {
    FullScan(m, q, now, thresh)[..i] + q[i..]
  }

  /** Where a scan stands after passing index `i`. */
  ghost predicate Scanned(m: Mile, q: seq<Rec>, now: nat, thresh: nat, i: nat,
                          cur: seq<Rec>, timeout: nat, marked: bool)
  {
    && i <= |q|
    && cur == Judged(m, q, now, thresh, i)
    && timeout == TimeoutBelow(m, q, now, thresh, i)
    && marked == DueBelow(m, q, now, thresh, i)
  }

  /** Records that are no candidates change nothing. */
  lemma {:induction false} ScanSkips(m: Mile, q: seq<Rec>, now: nat, thresh: nat, i: nat, j: nat,
                                     cur: seq<Rec>, timeout: nat, marked: bool)
    requires i <= j <= |q| && Scanned(m, q, now, thresh, i, cur, timeout, marked)
    requires forall k :: i <= k < j ==> !Candidate(m, q[k])
    ensures Scanned(m, q, now, thresh, j, cur, timeout, marked)
    decreases j - i
  {
    if i < j {
      JudgedNext(m, q, now, thresh, i);
      ScanSkips(m, q, now, thresh, i + 1, j, cur, timeout, marked);
    }
  }

  lemma JudgedNext(m: Mile, q: seq<Rec>, now: nat, thresh: nat, i: nat)
    requires i < |q|
    ensures Judged(m, q, now, thresh, i)[i] == q[i]
    ensures Judged(m, q, now, thresh, i + 1) ==
            Judged(m, q, now, thresh, i)[i := Judge(m, q[i], now, thresh)]
  {
  }

  lemma ScanTakes(m: Mile, q: seq<Rec>, now: nat, thresh: nat, i: nat,
                  cur: seq<Rec>, timeout: nat, marked: bool)
    requires i < |q| && Scanned(m, q, now, thresh, i, cur, timeout, marked) && Candidate(m, q[i])
    ensures cur[i] == q[i]
    ensures if Deadline(q[i], thresh) <= now
            then Scanned(m, q, now, thresh, i + 1, cur[i := LostRec(q[i])], timeout, true)
            else Scanned(m, q, now, thresh, i + 1, cur,
                         Max(timeout, Deadline(q[i], thresh) - now), marked)
  {
    JudgedNext(m, q, now, thresh, i);
  }

  lemma ScanDone(m: Mile, q: seq<Rec>, now: nat, thresh: nat, i: nat,
                 cur: seq<Rec>, timeout: nat, marked: bool)
    requires i <= |q| && Scanned(m, q, now, thresh, i, cur, timeout, marked)
    requires forall k :: i <= k < |q| ==> !Candidate(m, q[k])
    ensures cur == FullScan(m, q, now, thresh)
    ensures timeout == FullTimeout(m, q, now, thresh) && marked == AnyDue(m, q, now, thresh)
  {
    ScanSkips(m, q, now, thresh, i, |q|, cur, timeout, marked);
  }

  /** Re-running the scan after the delay it returned, nothing else having
      changed, condemns every remaining candidate and asks for no further run. */
  lemma RerunFinishes(m: Mile, q: seq<Rec>, now: u64, thresh: nat)
    ensures var first := FullScan(m, q, now, thresh);
            var later := now + FullTimeout(m, q, now, thresh);
            && later <= U64_MAX
            && FullTimeout(m, first, later, thresh) == 0
            && forall i :: 0 <= i < |q| ==>
                 && !Candidate(m, FullScan(m, first, later, thresh)[i])
                 && (Candidate(m, q[i]) ==> Resend(FullScan(m, first, later, thresh)[i]))
  {
    var first := FullScan(m, q, now, thresh);
    var later := now + FullTimeout(m, q, now, thresh);
    TimeoutFits(m, q, now, thresh, |q|);
    forall i | 0 <= i < |q|
      ensures Candidate(m, first[i]) ==> Deadline(first[i], thresh) <= later
    {
      DelayWithin(m, q, now, thresh, i, |q|);
    }
    NoDelays(m, first, later, thresh, |q|);
  }

  lemma {:induction false} TimeoutFits(m: Mile, q: seq<Rec>, now: u64, thresh: nat, i: nat)
    requires i <= |q|
    ensures now + TimeoutBelow(m, q, now, thresh, i) <= U64_MAX
  {
    if i > 0 {
      TimeoutFits(m, q, now, thresh, i - 1);
    }
  }

  lemma {:induction false} DelayWithin(m: Mile, q: seq<Rec>, now: nat, thresh: nat, k: nat, i: nat)
    requires k < i <= |q|
    ensures Delay(m, q[k], now, thresh) <= TimeoutBelow(m, q, now, thresh, i)
  {
    if k < i - 1 {
      DelayWithin(m, q, now, thresh, k, i - 1);
    }
  }

  lemma {:induction false} NoDelays(m: Mile, q: seq<Rec>, now: nat, thresh: nat, i: nat)
    requires i <= |q|
    requires forall k :: 0 <= k < i ==> Delay(m, q[k], now, thresh) == 0
    ensures TimeoutBelow(m, q, now, thresh, i) == 0
  {
    if i > 0 {
      NoDelays(m, q, now, thresh, i - 1);
    }
  }

  // ---- The verdict, written out --------------------------------------------

  /** Unacknowledged, not lost and waiting, and sent before `m`. */
  predicate InDoubt(m: Mile, s: Rec) {
    && !s.flags.sacked && (s.flags.lost ==> s.flags.retrans)
    && (m.xmit > s.xmit || (m.xmit == s.xmit && m.end > s.end))
  }

  /** A round trip and the reordering window have passed since `s` was sent, or the
      clock has reached its last value. */
  predicate Overdue(s: Rec, now: nat, rtt: nat, reoWnd: nat) {
    now - s.ts >= rtt + reoWnd || now >= U64_MAX
  }

  /** From `now` until `s` is overdue. */
  function Left(s: Rec, now: nat, rtt: nat, reoWnd: nat): int {
    if s.ts + rtt + reoWnd <= U64_MAX then s.ts + rtt + reoWnd - now else U64_MAX - now
  }

  /** `s` with itself, and any retransmission of it, lost. */
  function Condemned(s: Rec): Rec {
    Rec(s.start, s.end, s.ts, s.xmit,
        Flags(s.flags.sacked, true, false, s.flags.ever, s.flags.fin, false), 0)
  }

  /** Exactly the overdue records in doubt are condemned, and the delay is the longest
      that another in doubt has left, if any. */
  ghost predicate Verdict(m: Mile, q: seq<Rec>, q': seq<Rec>, now: nat, rtt: nat, reoWnd: nat,
                          marked: bool, delay: nat)
  {
    && |q'| == |q|
    && (forall i :: 0 <= i < |q| ==>
          q'[i] == if InDoubt(m, q[i]) && Overdue(q[i], now, rtt, reoWnd) then Condemned(q[i]) else q[i])
    && (marked <==> exists i :: 0 <= i < |q| && InDoubt(m, q[i]) && Overdue(q[i], now, rtt, reoWnd))
    && (forall i :: 0 <= i < |q| && InDoubt(m, q[i]) && !Overdue(q[i], now, rtt, reoWnd) ==>
          0 < Left(q[i], now, rtt, reoWnd) <= delay)
    && (delay > 0 ==> exists i :: 0 <= i < |q| && InDoubt(m, q[i]) && !Overdue(q[i], now, rtt, reoWnd)
                                  && delay == Left(q[i], now, rtt, reoWnd))
  }

  lemma DueIsOverdue(m: Mile, s: Rec, now: nat, rtt: nat, reoWnd: nat)
    ensures Candidate(m, s) <==> InDoubt(m, s)
    ensures Due(m, s, now, rtt + reoWnd) <==> InDoubt(m, s) && Overdue(s, now, rtt, reoWnd)
    ensures !s.flags.sacked && !Resend(s) ==> LostRec(s) == Condemned(s)
    ensures InDoubt(m, s) && !Overdue(s, now, rtt, reoWnd) ==>
              Delay(m, s, now, rtt + reoWnd) == Left(s, now, rtt, reoWnd) > 0
    ensures !(InDoubt(m, s) && !Overdue(s, now, rtt, reoWnd)) ==> Delay(m, s, now, rtt + reoWnd) == 0
  {
  }

  lemma {:induction false} LongestDelay(m: Mile, q: seq<Rec>, now: nat, thresh: nat, i: nat)
    requires i <= |q| && TimeoutBelow(m, q, now, thresh, i) > 0
    ensures exists k :: 0 <= k < i && Delay(m, q[k], now, thresh) == TimeoutBelow(m, q, now, thresh, i)
  {
    if TimeoutBelow(m, q, now, thresh, i) == TimeoutBelow(m, q, now, thresh, i - 1) {
      LongestDelay(m, q, now, thresh, i - 1);
    }
  }

  /** Judging every record gives that verdict. */
  lemma ScanIsVerdict(m: Mile, q: seq<Rec>, now: nat, rtt: nat, reoWnd: nat)
    ensures Verdict(m, q, FullScan(m, q, now, rtt + reoWnd), now, rtt, reoWnd,
                    AnyDue(m, q, now, rtt + reoWnd), FullTimeout(m, q, now, rtt + reoWnd))
  {
    hide Candidate, InDoubt, Overdue, Due, Delay, Left, LostRec, Condemned, TimeoutBelow, Resend;
    var thresh := rtt + reoWnd;
    var q', t := FullScan(m, q, now, thresh), FullTimeout(m, q, now, thresh);
    forall i | 0 <= i < |q|
      ensures Due(m, q[i], now, thresh) <==> InDoubt(m, q[i]) && Overdue(q[i], now, rtt, reoWnd)
      ensures Due(m, q[i], now, thresh) ==> q'[i] == Condemned(q[i])
      ensures InDoubt(m, q[i]) && !Overdue(q[i], now, rtt, reoWnd) ==> 0 < Left(q[i], now, rtt, reoWnd) <= t
    {
      DueIsOverdue(m, q[i], now, rtt, reoWnd);
      DelayWithin(m, q, now, thresh, i, |q|);
      if Due(m, q[i], now, thresh) {
        DueIsFree(m, q[i], now, thresh);
      }
    }
    if t > 0 {
      LongestDelay(m, q, now, thresh, |q|);
      var k :| 0 <= k < |q| && Delay(m, q[k], now, thresh) == t;
      DueIsOverdue(m, q[k], now, rtt, reoWnd);
    }
  }

  lemma DueIsFree(m: Mile, s: Rec, now: nat, thresh: nat)
    requires Due(m, s, now, thresh)
    ensures !s.flags.sacked && !Resend(s)
  {
  }

  // ---- The RACK state ------------------------------------------------------

  /** What RACK knows, on unbounded positions: the mile (if any segment has been
      credited), its round trip, the highest delivered position now and before
      the current ACK, and whether reordering was seen. */
  datatype Known = Known(valid: bool, mile: Mile, rtt: u32, fack: Option<int>,
                         prior: Option<int>, reordering: bool)

  function Rtt(s: Rec, now: nat): u32 {
    var d := if s.ts <= now then now - s.ts else 0;
    if d <= U32_MAX then d else U32_MAX
  }

  /** The ACK may be for an earlier transmission of the retransmitted `s`: it
      echoes an older timestamp, or came back faster than any round trip. */
  predicate Ambiguous(s: Rec, now: nat, tsecr: Option<u32>, minRtt: Option<u32>) {
    && s.flags.ever
    && (|| (tsecr.Some? && SeqLt(tsecr.value, Wire(s.ts)))
        || (minRtt.Some? && Rtt(s, now) < minRtt.value))
  }

  /** Say the ACK stands for the transmission made at `t`, echoes its time if anything,
      and took at least the least round trip. Then the latest transmission is always
      credited; with an echo no earlier one is; and without, one is exactly when the
      latest could by now have been acknowledged too. */
  lemma FilterTells(s: Rec, t: nat, now: nat, tsecr: Option<u32>, minRtt: Option<u32>)
    requires t <= s.ts <= now && s.ts - t < HALF
    requires !s.flags.ever ==> t == s.ts
    requires tsecr.Some? ==> tsecr.value == Wire(t)
    requires minRtt.Some? ==> t + minRtt.value <= now
    ensures t == s.ts ==> !Ambiguous(s, now, tsecr, minRtt)
    ensures tsecr.Some? && t < s.ts ==> Ambiguous(s, now, tsecr, minRtt)
    ensures tsecr.None? && s.flags.ever ==>
              (Ambiguous(s, now, tsecr, minRtt) <==> minRtt.Some? && now < s.ts + minRtt.value)
  {
    SerialOrder(t, s.ts);
  }

  function Noted(r: Known, s: Rec): Known {
    r.(reordering := r.reordering || (r.prior.Some? && !s.flags.ever && s.end < r.prior.value),
       fack := if r.fack.None? || r.fack.value < s.end then Some(s.end) else r.fack)
  }

  function Credited(r: Known, s: Rec, rtt: u32): Known {
    if !r.valid || Later(MileOf(s), r.mile)
    then r.(rtt := rtt, valid := true, mile := MileOf(s))
    else r.(rtt := rtt)
  }

  /** `on_delivered`. */
  function Delivered(r: Known, s: Rec, now: nat, tsecr: Option<u32>, minRtt: Option<u32>): Known {
    if Ambiguous(s, now, tsecr, minRtt) then Noted(r, s)
    else Credited(Noted(r, s), s, Rtt(s, now))
  }

  /** Positions `p` and `q` are close enough for serial comparison. */
  predicate Close(p: int, q: int) {
    -HALF < p - q < HALF
  }

  class State {
    var valid: bool
    var xmitSeq: u32
    var endSeq: u32
    var rtt: u32
    const minRtt: WinMin.Window
    var fack: u32
    var fackValid: bool
    var priorFack: u32
    var priorFackValid: bool
    var reorderingSeen: bool

    ghost var known: Known

    ghost predicate Valid()
      reads this, minRtt
    {
      && minRtt.Valid()
      && known.valid == valid && known.rtt == rtt && known.reordering == reorderingSeen
      && (valid ==> xmitSeq == Wire(known.mile.xmit) && endSeq == Wire(known.mile.end))
      && known.fack.Some? == fackValid && (fackValid ==> fack == Wire(known.fack.value))
      && known.prior.Some? == priorFackValid && (priorFackValid ==> priorFack == Wire(known.prior.value))
    }

    constructor ()
      ensures Valid() && fresh(minRtt)
      ensures known == Known(false, Mile(0, 0), 0, None, None, false)
    {
      valid, xmitSeq, endSeq, rtt := false, 0, 0, 0;
      fack, fackValid, priorFack, priorFackValid, reorderingSeen := 0, false, 0, false, false;
      minRtt := new WinMin.Window();
      known := Known(false, Mile(0, 0), 0, None, None, false);
    }

    /** Once per ACK, before its deliveries. */
    method OnAckStart()
      requires Valid()
      modifies this
      ensures Valid() && known == old(known).(prior := old(known).fack)
    {
      priorFack, priorFackValid := fack, fackValid;
      known := known.(prior := known.fack);
    }

    /** Steps 2 and 3 of RFC 8985 section 6.2 for one newly delivered segment. */
    method OnDelivered(seg: Seg, ghost s: Rec, now: u64, tsecr: Option<u32>)
      requires Valid() && Matches(seg, s)
      requires known.fack.Some? ==> Close(s.end, known.fack.value)
      requires known.prior.Some? ==> Close(s.end, known.prior.value)
      requires valid ==> Comparable(MileOf(s), known.mile)
      modifies this
      ensures Valid() && known == Delivered(old(known), s, now, tsecr, minRtt.Get())
    {
      hide WinMin.Window.Valid, Comparable, SentAfter, Later;
      NoteFack(seg, s);
      var d := if seg.ts <= now then now - seg.ts else 0;
      var r := if d <= U32_MAX then d else U32_MAX;
      if seg.flags.ever {
        if tsecr.Some? && SeqLt(tsecr.value, Wire(seg.ts)) {
          return;
        }
        if minRtt.Get().Some? && r < minRtt.Get().value {
          return;
        }
      }
      Credit(seg, s, r);
    }

    /** Step 3: the highest delivered position, and reordering below it. */
    method NoteFack(seg: Seg, ghost s: Rec)
      requires Valid() && Matches(seg, s)
      requires known.fack.Some? ==> Close(s.end, known.fack.value)
      requires known.prior.Some? ==> Close(s.end, known.prior.value)
      modifies this
      ensures Valid() && known == Noted(old(known), s)
    {
      hide WinMin.Window.Valid;
      if known.prior.Some? {
        SerialOrder(known.prior.value, s.end);
      }
      if known.fack.Some? {
        SerialOrder(s.end, known.fack.value);
      }
      if priorFackValid && !seg.flags.ever && SeqGt(priorFack, seg.end) {
        reorderingSeen := true;
      }
      if !fackValid || SeqGt(seg.end, fack) {
        fack, fackValid := seg.end, true;
      }
      known := Noted(known, s);
    }

    /** The round trip, and the mile if `seg` was sent after it. */
    method Credit(seg: Seg, ghost s: Rec, r: u32)
      requires Valid() && Matches(seg, s)
      requires valid ==> Comparable(MileOf(s), known.mile)
      modifies this
      ensures Valid() && known == Credited(old(known), s, r)
    {
      hide WinMin.Window.Valid;
      if valid {
        SentAfterIsLater(MileOf(s), known.mile);
      }
      known := Credited(known, s, r);
      rtt := r;
      if !valid || SentAfter(seg.xmit, seg.end, xmitSeq, endSeq) {
        valid, xmitSeq, endSeq := true, seg.xmit, seg.end;
      }
    }
  }

  /** `detect_loss`: the scan that jumps over SACKED runs and stops at the first
      never-retransmitted record not sent before RACK's segment marks the same
      records and returns the same delay as judging every record. */
  method DetectLoss(rack: State, q: Queue, now: u64, reoWnd: u32) returns (marked: bool, timeout: Option<u64>)
    requires rack.Valid() && q.Valid()
    requires rack.valid ==>
               forall i :: 0 <= i < |q.recs| ==> Comparable(rack.known.mile, MileOf(q.recs[i]))
    modifies q, q.segs, q.words
    ensures q.Valid() && q.sends == old(q.sends)
    ensures !rack.valid ==> q.recs == old(q.recs) && !marked && timeout == None
    ensures rack.valid ==>
              var m, thresh := rack.known.mile, rack.rtt + reoWnd;
              var t := FullTimeout(m, old(q.recs), now, thresh);
              && q.recs == FullScan(m, old(q.recs), now, thresh)
              && marked == AnyDue(m, old(q.recs), now, thresh)
              && timeout == if t > 0 then Some(t) else None
    ensures timeout.Some? ==> timeout.value > 0
    ensures rack.valid ==> Verdict(rack.known.mile, old(q.recs), q.recs, now, rack.rtt, reoWnd, marked,
                                   if timeout.Some? then timeout.value else 0)
  {
    hide Queue.Valid, WinMin.Window.Valid, FullScan, Comparable, Verdict, AnyDue, FullTimeout;
    ScanIsVerdict(rack.known.mile, q.recs, now, rack.rtt, reoWnd);
    if !rack.valid {
      return false, None;
    }
    var t: u64;
    marked, t := Scan(q, rack.xmitSeq, rack.endSeq, now, rack.rtt + reoWnd, rack.known.mile);
    timeout := if t > 0 then Some(t) else None;
  }

  method Scan(q: Queue, xmitSeq: u32, endSeq: u32, now: u64, thresh: u64, ghost m: Mile)
    returns (marked: bool, timeout: u64)
    requires q.Valid() && xmitSeq == Wire(m.xmit) && endSeq == Wire(m.end)
    requires forall i :: 0 <= i < |q.recs| ==> Comparable(m, MileOf(q.recs[i]))
    modifies q, q.segs, q.words
    ensures q.Valid() && q.sends == old(q.sends)
    ensures q.recs == FullScan(m, old(q.recs), now, thresh)
    ensures marked == AnyDue(m, old(q.recs), now, thresh)
    ensures timeout == FullTimeout(m, old(q.recs), now, thresh)
  {
    hide Chain, SentInOrder, Mirrors, BitsMirror, CountsAre, HintOk, Scanned, Judged, FullScan, LostRec;
    ghost var was := q.recs;
    var i: nat := 0;
    marked, timeout := false, 0;
    ScanStart(m, was, now, thresh);
    while i < q.len
      invariant i <= |q.recs| == |was| && q.Valid() && q.sends == old(q.sends)
      invariant Scanned(m, was, now, thresh, i, q.recs, timeout, marked)
      decreases |was| - i
    {
      ScanCurrent(m, was, now, thresh, i, q.recs, timeout, marked);
      var got := q.Get(i);
      var s := got.value;
      if s.flags.sacked {
        var j := q.NextUnsacked(i + 1);
        ghost var to: nat := Sacking.NextUnsacked(q.recs, i + 1);
        ScanSkips(m, was, now, thresh, i, to, q.recs, timeout, marked);
        i := if j.Some? then j.value else q.len;
      } else if s.flags.lost && !s.flags.retrans {
        ScanSkips(m, was, now, thresh, i, i + 1, q.recs, timeout, marked);
        i := i + 1;
      } else {
        SentAfterIsLater(m, MileOf(was[i]));
        if !SentAfter(xmitSeq, endSeq, s.xmit, s.end) {
          if !s.flags.ever {
            NothingAbove(m, was, q.sends, i);
            break;
          }
          ScanSkips(m, was, now, thresh, i, i + 1, q.recs, timeout, marked);
        } else {
          var deadline := if s.ts + thresh <= U64_MAX then s.ts + thresh else U64_MAX;
          ScanTakes(m, was, now, thresh, i, q.recs, timeout, marked);
          if now >= deadline {
            q.MarkLost(i);
            marked := true;
          } else {
            timeout := if timeout < deadline - now then deadline - now else timeout;
          }
        }
        i := i + 1;
      }
    }
    ScanDone(m, was, now, thresh, i, q.recs, timeout, marked);
  }

  lemma ScanStart(m: Mile, q: seq<Rec>, now: nat, thresh: nat)
    ensures Scanned(m, q, now, thresh, 0, q, 0, false)
  {
    assert Judged(m, q, now, thresh, 0) == q;
  }

  lemma ScanCurrent(m: Mile, q: seq<Rec>, now: nat, thresh: nat, i: nat,
                    cur: seq<Rec>, timeout: nat, marked: bool)
    requires Scanned(m, q, now, thresh, i, cur, timeout, marked) && i < |q|
    ensures |cur| == |q| && forall k :: i <= k < |q| ==> cur[k] == q[k]
  {
  }
}
