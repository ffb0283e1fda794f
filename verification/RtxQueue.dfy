/** The retransmission queue: a circular array of segment records with 32-bit
    sequence numbers, incremental byte counters, a bitmap of SACKED slots and a
    cached search start, kept equal to the `Board` it stands for. */
module RtxQueue {
  import opened Options
  import opened Serial
  import opened Bits
  import opened Circular
  import opened SackBitmap
  import opened Scoreboard
  import opened Sacking
  import opened QueueRuns

  const RTX_QUEUE_CAP: nat := 1024
  const SACK_WORDS: nat := 16

  /** One transmitted segment, as stored. */
  datatype Seg = Seg(start: u32, end: u32, ts: u64, xmit: u32, flags: Flags, sent: u16) {
    function SeqLen(): u32 { WSub(end, start) }

    function PayloadLen(): u32 { SatSub(SeqLen(), if flags.fin then 1 else 0) }

    function RetransLen(): u32 { if flags.partial then sent else SeqLen() }
  }

  /** The stored segment `s` stands for the record `r`. */
  predicate Matches(s: Seg, r: Rec) {
    && s.start == Wire(r.start) && s.end == Wire(r.end)
    && s.ts == r.ts && s.xmit == Wire(r.xmit)
    && s.flags == r.flags && s.sent == r.sent
  }

  predicate Mirrors(segs: seq<Seg>, head: nat, recs: seq<Rec>)
    requires head < |segs| && |recs| <= |segs|
  {
    forall i :: 0 <= i < |recs| ==> Matches(segs[Slot(head, i, |segs|)], recs[i])
  }

  predicate BitsMirror(ws: seq<Word>, head: nat, cap: nat, recs: seq<Rec>)
    requires Sized(ws, cap) && head < cap && |recs| <= cap
  {
    forall i :: 0 <= i < |recs| ==> BitAt(ws, Slot(head, i, cap)) == recs[i].flags.sacked
  }

  predicate Small(recs: seq<Rec>) {
    recs != [] ==> Last(recs) - First(recs) <= MAX_SPAN
  }

  /** `p` is close enough to the queue for serial comparisons with it. */
  predicate Near(recs: seq<Rec>, p: int) {
    recs != [] ==> First(recs) - MAX_SPAN < p < Last(recs) + MAX_SPAN
  }

  predicate Resend(s: Rec) {
    s.flags.lost && !s.flags.retrans
  }

  predicate HintOk(hint: nat, recs: seq<Rec>) {
    && hint <= |recs|
    && forall i :: 0 <= i < hint ==> !Resend(recs[i])
  }

  // ---- Reading sequence numbers through the view ---------------------------

  /** Record bounds lie within the span. */
  lemma InSpan(recs: seq<Rec>, i: nat)
    requires Chain(recs) && i < |recs|
    ensures First(recs) <= recs[i].start < recs[i].end <= Last(recs)
  {
    if i > 0 {
      Ordered(recs, 0, i);
    }
    if i < |recs| - 1 {
      Ordered(recs, i, |recs| - 1);
    }
  }

  lemma SegLength(s: Seg, recs: seq<Rec>, i: nat)
    requires Chain(recs) && Small(recs) && i < |recs| && Matches(s, recs[i])
    ensures s.SeqLen() == recs[i].Len() && s.PayloadLen() == recs[i].Payload()
    ensures s.RetransLen() == recs[i].RetransLen()
  {
    InSpan(recs, i);
    SerialDistance(recs[i].end, recs[i].start);
  }

  /** Serial comparisons with a record's bounds are comparisons of positions. */
  lemma SegOrder(s: Seg, recs: seq<Rec>, i: nat, p: int)
    requires Chain(recs) && Small(recs) && i < |recs| && Matches(s, recs[i]) && Near(recs, p)
    ensures SeqLt(s.start, Wire(p)) <==> recs[i].start < p
    ensures SeqLt(Wire(p), s.end) <==> p < recs[i].end
    ensures SeqLe(s.end, Wire(p)) <==> recs[i].end <= p
    ensures SeqLe(Wire(p), s.start) <==> p <= recs[i].start
  {
    InSpan(recs, i);
    SerialOrder(recs[i].start, p);
    SerialOrder(p, recs[i].end);
    SerialOrder(recs[i].end, p);
    SerialOrder(p, recs[i].start);
  }

  /** No counter can exceed the span, so none ever saturates. */
  lemma {:induction false} TotalBound(m: Mark, recs: seq<Rec>)
    requires Chain(recs)
    ensures 0 <= Total(m, recs) <= if recs == [] then 0 else Last(recs) - First(recs)
  {
    if recs != [] {
      WidthBound(m, recs[0]);
      ChainSlice(recs, 1, |recs|);
      TotalBound(m, recs[1..]);
      if |recs| > 1 {
        assert recs[1..][0] == recs[1] && Last(recs[1..]) == Last(recs);
      }
    }
  }

  // ---- The counters --------------------------------------------------------

  datatype Counts = Counts(sacked: u32, lost: u32, retrans: u32)

  /** `add_counts`: saturating, as the source does it. */
  function Counted(c: Counts, s: Seg, sign: bool): Counts {
    var n := s.SeqLen();
    Counts(if s.flags.sacked then Bump(c.sacked, n, sign) else c.sacked,
           if s.flags.lost then Bump(c.lost, n, sign) else c.lost,
           if s.flags.retrans then Bump(c.retrans, s.RetransLen(), sign) else c.retrans)
  }

  function Bump(c: u32, n: u32, sign: bool): u32 {
    if sign then SatAdd(c, n) else SatSub(c, n)
  }

  predicate CountsAre(c: Counts, recs: seq<Rec>) {
    c.sacked == Total(Sacked, recs) && c.lost == Total(Lost, recs) && c.retrans == Total(Resent, recs)
  }

  /** The counters agree with `recs` less the widths of `out`. */
  predicate CountsLess(c: Counts, recs: seq<Rec>, out: Rec) {
    && c.sacked == Total(Sacked, recs) - Width(Sacked, out)
    && c.lost == Total(Lost, recs) - Width(Lost, out)
    && c.retrans == Total(Resent, recs) - Width(Resent, out)
  }

  lemma {:induction false} WidthInTotal(m: Mark, recs: seq<Rec>, i: nat)
    requires Chain(recs) && i < |recs|
    ensures 0 <= Width(m, recs[i]) <= Total(m, recs)
  {
    WidthBound(m, recs[i]);
    ChainSlice(recs, 0, i);
    ChainSlice(recs, i + 1, |recs|);
    TotalBound(m, recs[..i]);
    TotalBound(m, recs[i + 1..]);
    PatchTotal(m, recs, i, []);
    TotalAppend(m, recs[..i] + [], recs[i + 1..]);
    assert recs[..i] + [] == recs[..i];
  }

  /** Taking a record out of the counters never clips at zero. */
  lemma CountOut(c: Counts, s: Seg, recs: seq<Rec>, i: nat)
    requires Chain(recs) && Small(recs) && i < |recs| && Matches(s, recs[i]) && CountsAre(c, recs)
    ensures CountsLess(Counted(c, s, false), recs, recs[i])
  {
    SegLength(s, recs, i);
    WidthInTotal(Sacked, recs, i);
    WidthInTotal(Lost, recs, i);
    WidthInTotal(Resent, recs, i);
  }

  /** Putting the changed record back never clips at the top. */
  lemma CountIn(c: Counts, t: Seg, recs: seq<Rec>, recs': seq<Rec>, i: nat)
    requires i < |recs| && i < |recs'| && recs' == recs[i := recs'[i]]
    requires Chain(recs') && Small(recs') && Matches(t, recs'[i]) && CountsLess(c, recs, recs[i])
    ensures CountsAre(Counted(c, t, true), recs')
  {
    SegLength(t, recs', i);
    UpdateTotal(Sacked, recs, i, recs'[i]);
    UpdateTotal(Lost, recs, i, recs'[i]);
    UpdateTotal(Resent, recs, i, recs'[i]);
    TotalBound(Sacked, recs');
    TotalBound(Lost, recs');
    TotalBound(Resent, recs');
  }

  // ---- The array under single-slot changes ---------------------------------

  /** `recs` with `r` at index `i`, its length at most. */
  function Put(recs: seq<Rec>, i: nat, r: Rec): seq<Rec>
    requires i <= |recs|
  {
    if i < |recs| then recs[i := r] else recs + [r]
  }

  lemma MirrorsPut(segs: seq<Seg>, head: nat, recs: seq<Rec>, i: nat, s: Seg, r: Rec)
    requires head < |segs| && |recs| <= |segs| && i <= |recs| && i < |segs|
    requires Mirrors(segs, head, recs) && Matches(s, r)
    ensures Mirrors(segs[Slot(head, i, |segs|) := s], head, Put(recs, i, r))
  {
  }

  lemma BitsPut(ws: seq<Word>, ws': seq<Word>, head: nat, cap: nat, recs: seq<Rec>, i: nat, r: Rec)
    requires Sized(ws, cap) && Sized(ws', cap) && head < cap && |recs| <= cap && i <= |recs| && i < cap
    requires BitsMirror(ws, head, cap, recs)
    requires forall k :: 0 <= k < cap ==>
               BitAt(ws', k) == if k == Slot(head, i, cap) then r.flags.sacked else BitAt(ws, k)
    ensures BitsMirror(ws', head, cap, Put(recs, i, r))
  {
  }

  class Queue {
    const cap: nat
    const segs: array<Seg>
    const words: array<Word>
    var head: nat
    var len: nat
    var counts: Counts
    /** Logical index below which no segment is lost and not retransmitted. */
    var lostHint: nat
    var nextXmit: u32

    ghost var recs: seq<Rec>
    ghost var sends: nat

    ghost predicate Shape()
      reads this
    {
      && 0 < cap <= RTX_QUEUE_CAP && cap % 64 == 0
      && segs.Length == cap && words.Length == SACK_WORDS
      && head < cap && len == |recs| <= cap
    }

    ghost function View(): Board
      reads this
    {
      Board(recs, sends)
    }

    ghost predicate Core()
      reads this, segs, words
    {
      && Shape()
      && Inv(View(), cap) && Small(recs)
      && Mirrors(segs[..], head, recs)
      && BitsMirror(words[..], head, cap, recs)
      && nextXmit == Wire(sends)
    }

    /** What `debug_valid` checks, and more: contiguity, flag exclusions, partial
        bounds, FIN last, bitmap, counters, search hint and sending order. */
    ghost predicate Valid()
      reads this, segs, words
    {
      Core() && CountsAre(counts, recs) && HintOk(lostHint, recs)
    }

    constructor (cap: nat)
      requires 0 < cap <= RTX_QUEUE_CAP && cap % 64 == 0
      ensures Valid() && this.cap == cap && View() == Board([], 0)
      ensures fresh(segs) && fresh(words)
    {
      this.cap := cap;
      segs := new Seg[cap](_ => Seg(0, 0, 0, 0, Flags(false, false, false, false, false, false), 0));
      words := new Word[SACK_WORDS](_ => 0);
      head, len, counts, lostHint, nextXmit := 0, 0, Counts(0, 0, 0), 0, 0;
      recs, sends := [], 0;
    }

    /** `get`. */
    method Get(i: nat) returns (r: Option<Seg>)
      requires Core()
      ensures r.Some? <==> i < |recs|
      ensures r.Some? ==> Matches(r.value, recs[i])
    {
      if i >= len {
        return None;
      }
      r := Some(segs[Slot(head, i, cap)]);
    }

    /** RFC 6675 `pipe`, with the source's saturating arithmetic. */
    method Pipe(outstanding: u32) returns (n: u32)
      requires Valid()
      requires recs == [] ==> outstanding == 0
      requires recs != [] ==> outstanding == Last(recs) - First(recs)
      ensures n == QueueRuns.Pipe(recs, outstanding)
    {
      n := SatAdd(SatSub(SatSub(outstanding, counts.sacked), counts.lost), counts.retrans);
      if recs != [] {
        PipeIsByteSum(recs);
      }
    }

    /** Write record `i`, the next one included, and its bit. */
    method Store(i: nat, s: Seg, ghost r: Rec)
      requires Shape() && i <= len && i < cap && Matches(s, r)
      requires Mirrors(segs[..], head, recs) && BitsMirror(words[..], head, cap, recs)
      modifies this`recs, this`len, segs, words
      ensures Shape() && recs == Put(old(recs), i, r)
      ensures Mirrors(segs[..], head, recs) && BitsMirror(words[..], head, cap, recs)
    {
      var p := Slot(head, i, cap);
      MirrorsPut(segs[..], head, recs, i, s, r);
      ghost var before := words[..];
      segs[p] := s;
      SetBit(words, p, s.flags.sacked);
      BitsPut(before, words[..], head, cap, recs, i, r);
      recs := Put(recs, i, r);
      if i == len {
        len := len + 1;
      }
    }

    /** `push`: refuses a segment when full. */
    method Push(seg: Seg, ghost start: int, ghost end: int) returns (ok: bool)
      requires Valid()
      requires seg.start == Wire(start) && seg.end == Wire(end) && seg.sent == 0
      requires seg.flags == Flags(false, false, false, false, seg.flags.fin, false)
      requires Allowed(View(), QueueRuns.Push(start, end, seg.ts, seg.flags.fin))
      requires end - (if recs == [] then start else First(recs)) <= MAX_SPAN
      modifies this, segs, words
      ensures Valid() && ok == (|old(recs)| < cap)
      ensures View() == Step(old(View()), QueueRuns.Push(start, end, seg.ts, seg.flags.fin), cap)
    {
      hide Chain, SentInOrder, Mirrors, BitsMirror, Total, HintOk, CountsAre, Small, Wire, WAdd;
      if len == cap {
        return false;
      }
      WireAdd(sends, 1);
      ghost var r := NewRec(start, end, seg.ts, seg.flags.fin, sends);
      StepKeeps(View(), QueueRuns.Push(start, end, seg.ts, seg.flags.fin), cap);
      PushTotals(recs, r, counts, lostHint);
      PushSpan(recs, r);
      Store(len, seg.(xmit := nextXmit), r);
      sends, nextXmit := sends + 1, WAdd(nextXmit, 1);
      ok := true;
    }

    /** Replace the flags and resent prefix of record `i`, keeping the counters,
        the bitmap and the search hint in step. */
    method SetState(i: nat, flags: Flags, sent: u16)
      requires Valid() && i < |recs|
      requires var t := recs[i].(flags := flags, sent := if flags.partial then sent else 0);
               RecOk(t) && SameExtent(recs[i], t) && (recs[i].flags.ever ==> flags.ever)
      modifies this, segs, words
      ensures Valid() && sends == old(sends)
      ensures recs == old(recs)[i := old(recs)[i].(flags := flags,
                                                    sent := if flags.partial then sent else 0)]
    {
      hide Chain, SentInOrder, Mirrors, BitsMirror, Total;
      var before := segs[Slot(head, i, cap)];
      var after := before.(flags := flags, sent := if flags.partial then sent else 0);
      ghost var t := recs[i].(flags := flags, sent := if flags.partial then sent else 0);
      MirrorsAt(segs[..], head, recs, i);
      UpdateKeeps(View(), i, t, cap);
      CountOut(counts, before, recs, i);
      CountIn(Counted(counts, before, false), after, recs, recs[i := t], i);
      counts := Counted(Counted(counts, before, false), after, true);
      Store(i, after, t);
      if flags.lost && !flags.retrans && i < lostHint {
        lostHint := i;
      }
    }

    /** `mark_lost`. */
    method MarkLost(i: nat)
      requires Valid()
      modifies this, segs, words
      ensures Valid() && View() == Step(old(View()), QueueRuns.MarkLost(i), cap)
    {
      hide Chain, SentInOrder, Mirrors, BitsMirror, Total;
      var s := Get(i);
      if s.Some? {
        var f := s.value.flags;
        ChainAt(recs, i);
        if !f.sacked && !(f.lost && !f.retrans) {
          SetState(i, Unsent(f), s.value.sent);
        } else {
          assert recs == recs[i := LostRec(recs[i])];
        }
      }
    }

    /** `on_retransmit` (`sent` 0) and `on_partial_retransmit` (`sent` > 0). */
    method Retransmitted(i: nat, now: u64, sent: u16)
      requires Valid() && Allowed(View(), Retransmit(i, now, sent))
      modifies this, segs, words
      ensures Valid() && View() == Step(old(View()), Retransmit(i, now, sent), cap)
    {
      hide Chain, SentInOrder, Mirrors, BitsMirror, Total;
      var s := Get(i);
      if s.Some? {
        ChainAt(recs, i);
        StepKeeps(View(), Retransmit(i, now, sent), cap);
        ghost var t := ResentRec(recs[i], now, sent, sends);
        ghost var was := recs;
        SetState(i, s.value.flags.(retrans := true, ever := true, partial := sent > 0), sent);
        assert recs[i := t] == was[i := t];
        Restamp(i, now, t);
      }
    }

    /** Give record `i` its new transmit time and number. */
    method Restamp(i: nat, now: u64, ghost t: Rec)
      requires Valid() && i < |recs| && t == recs[i].(ts := now, xmit := sends)
      requires Inv(Board(recs[i := t], sends + 1), cap)
      modifies this, segs, words
      ensures Valid() && recs == old(recs)[i := t] && sends == old(sends) + 1
    {
      hide Chain, SentInOrder, Mirrors, BitsMirror, Total;
      MirrorsAt(segs[..], head, recs, i);
      var s := segs[Slot(head, i, cap)];
      UpdateTotal(Sacked, recs, i, t);
      UpdateTotal(Lost, recs, i, t);
      UpdateTotal(Resent, recs, i, t);
      Store(i, s.(ts := now, xmit := nextXmit), t);
      sends, nextXmit := sends + 1, WAdd(nextXmit, 1);
    }

    /** `next_lost`: the lowest record that is lost and not yet retransmitted. */
    method NextLost() returns (r: Option<nat>)
      requires Valid()
      modifies this`lostHint
      ensures Valid()
      ensures r.Some? ==> r.value < |recs| && Resend(recs[r.value])
      ensures r.Some? ==> forall k :: 0 <= k < r.value ==> !Resend(recs[k])
      ensures r.None? ==> forall k :: 0 <= k < |recs| ==> !Resend(recs[k])
    {
      hide Chain, SentInOrder, BitsMirror, Total;
      var i := lostHint;
      while i < len
        invariant lostHint <= i <= len
        invariant forall k :: 0 <= k < i ==> !Resend(recs[k])
        invariant Core() && lostHint == old(lostHint)
      {
        MirrorsAt(segs[..], head, recs, i);
        var f := segs[Slot(head, i, cap)].flags;
        if f.lost && !f.retrans {
          lostHint := i;
          return Some(i);
        }
        i := i + 1;
      }
      lostHint := len;
      r := None;
    }

    /** `next_unsacked`, by way of the bitmap. */
    method NextUnsacked(from: nat) returns (r: Option<nat>)
      requires Core()
      ensures from <= |recs| ==>
                r == var j := Sacking.NextUnsacked(recs, from); if j < |recs| then Some(j) else None
      ensures |recs| < from ==> r == None
    {
      hide Chain, SentInOrder, Mirrors;
      var j := NextClear(words, head, len, from, cap);
      if from <= len {
        FirstUnsacked(recs, from, j);
      }
      r := if j < len then Some(j) else None;
    }

    /** `find`: the record containing sequence number `x`, for every 32-bit `x`. */
    method Find(x: u32) returns (r: Option<nat>)
      requires Core()
      ensures recs == [] ==> r == None
      ensures recs != [] ==>
                var p := First(recs) + WSub(x, Wire(First(recs)));
                r == if p < Last(recs) then Some(IndexOf(recs, p)) else None
    {
      hide Chain, SentInOrder, Mirrors, BitsMirror, Total, WSub, Wire;
      if len == 0 {
        return None;
      }
      MirrorsAt(segs[..], head, recs, 0);
      var first := segs[head].start;
      var rel := WSub(x, first);
      ghost var p := First(recs) + rel;
      var lo, hi := 0, len;
      while lo < hi
        invariant 0 <= lo <= hi <= len
        invariant 0 < lo ==> recs[lo - 1].end <= p
        invariant hi < len ==> p < recs[hi].start
      {
        var mid := lo + (hi - lo) / 2;
        var s := segs[Slot(head, mid, cap)];
        MirrorsAt(segs[..], head, recs, mid);
        Offsets(s, recs, mid);
        if WSub(s.end, first) <= rel {
          lo := mid + 1;
        } else if WSub(s.start, first) > rel {
          hi := mid;
        } else {
          UniqueIndex(recs, p, mid);
          return Some(mid);
        }
      }
      Nowhere(recs, p, lo);
      r := None;
    }

    /** `mark_all_lost`: on a timeout everything not SACKED is lost. */
    method MarkAllLost()
      requires Valid()
      modifies this, segs, words
      ensures Valid() && View() == Step(old(View()), QueueRuns.MarkAllLost, cap)
    {
      hide Chain, SentInOrder, Mirrors, BitsMirror, Total, CountsAre, Swept, EachRec, Rewrite;
      ghost var was, op := recs, QueueRuns.MarkAllLost;
      SweepEnds(was, op);
      for i := 0 to len
        invariant Valid() && sends == old(sends) && len == |was|
        invariant recs == Swept(was, op, i)
      {
        SweepOne(was, op, i);
        LoseOne(i);
      }
      lostHint := 0;
    }

    /** `unmark_lost`: a loss episode was shown to be spurious. */
    method UnmarkLost()
      requires Valid()
      modifies this, segs, words
      ensures Valid() && View() == Step(old(View()), QueueRuns.UnmarkLost, cap)
    {
      hide Chain, SentInOrder, Mirrors, BitsMirror, Total, CountsAre, Swept, EachRec, Rewrite;
      ghost var was, op := recs, QueueRuns.UnmarkLost;
      SweepEnds(was, op);
      for i := 0 to len
        invariant Valid() && sends == old(sends) && len == |was|
        invariant recs == Swept(was, op, i)
      {
        SweepOne(was, op, i);
        UnmarkOne(i);
      }
      lostHint := 0;
    }

    /** `clear_sacked`: the receiver reneged. */
    method ClearSacked()
      requires Valid()
      modifies this, segs, words
      ensures Valid() && View() == Step(old(View()), QueueRuns.ClearSacked, cap)
    {
      hide Chain, SentInOrder, Mirrors, BitsMirror, Total, CountsAre, Swept, EachRec, Rewrite;
      ghost var was, op := recs, QueueRuns.ClearSacked;
      SweepEnds(was, op);
      for i := 0 to len
        invariant Valid() && sends == old(sends) && len == |was|
        invariant recs == Swept(was, op, i)
      {
        SweepOne(was, op, i);
        UnsackOne(i);
      }
    }

    method LoseOne(i: nat)
      requires Valid() && i < |recs|
      modifies this, segs, words
      ensures Valid() && sends == old(sends) && len == old(len)
      ensures recs == old(recs)[i := Rewrite(old(recs)[i], QueueRuns.MarkAllLost)]
    {
      hide Chain, SentInOrder, Mirrors, BitsMirror, Total, CountsAre;
      MarkLost(i);
    }

    method UnmarkOne(i: nat)
      requires Valid() && i < |recs|
      modifies this, segs, words
      ensures Valid() && sends == old(sends) && len == old(len)
      ensures recs == old(recs)[i := Rewrite(old(recs)[i], QueueRuns.UnmarkLost)]
    {
      hide Chain, SentInOrder, Mirrors, BitsMirror, Total;
      MirrorsAt(segs[..], head, recs, i);
      ChainAt(recs, i);
      var s := segs[Slot(head, i, cap)];
      if s.flags.lost && !s.flags.retrans {
        SetState(i, s.flags.(lost := false), s.sent);
      }
    }

    method UnsackOne(i: nat)
      requires Valid() && i < |recs|
      modifies this, segs, words
      ensures Valid() && sends == old(sends) && len == old(len)
      ensures recs == old(recs)[i := Rewrite(old(recs)[i], QueueRuns.ClearSacked)]
    {
      hide Chain, SentInOrder, Mirrors, BitsMirror, Total;
      MirrorsAt(segs[..], head, recs, i);
      ChainAt(recs, i);
      var s := segs[Slot(head, i, cap)];
      if s.flags.sacked {
        SetState(i, s.flags.(sacked := false), s.sent);
      }
    }

    /** Move entries `i + 1 ..` up one slot, the highest first. */
    method ShiftEntries(i: nat)
      requires Shape() && i < len < cap
      modifies segs
      ensures MovedUp(segs[..], old(segs[..]), head, i, len)
    {
      var j := len;
      while j > i + 1
        invariant i < j <= len
        invariant MovedUp(segs[..], old(segs[..]), head, j - 1, len)
      {
        segs[Slot(head, j, cap)] := segs[Slot(head, j - 1, cap)];
        j := j - 1;
      }
    }

    /** `split`: cut record `i` at `at`, if that lies strictly inside it and a slot is free. */
    method Split(i: nat, at: u32, ghost pos: int) returns (ok: bool)
      requires Valid() && at == Wire(pos) && Near(recs, pos)
      modifies this, segs, words
      ensures Valid() && View() == Step(old(View()), QueueRuns.Split(i, pos), cap)
      ensures ok == (i < |old(recs)| && Inside(old(recs)[i], pos) && |old(recs)| < cap)
    {
      hide Chain, SentInOrder, Mirrors, BitsMirror, CountsAre, HintOk, SplitAt;
      hide LowerHalf, UpperHalf, LowerSeg, UpperSeg, SplitCounted;
      if i >= len {
        return false;
      }
      MirrorsAt(segs[..], head, recs, i);
      var s := segs[Slot(head, i, cap)];
      SegOrder(s, recs, i, pos);
      if !(SeqLt(s.start, at) && SeqLt(at, s.end)) || len == cap {
        return false;
      }
      var lower, upper := LowerSeg(s, at), UpperSeg(s, at);
      HalvesMatch(s, recs, i, at, pos);
      StepKeeps(View(), QueueRuns.Split(i, pos), cap);
      SplitChain(recs, i, pos);
      SplitCounts(counts, s, recs, i, at, pos);
      SplitHint(recs, i, pos, lostHint);
      Insert(i, pos, lower, upper);
      counts := SplitCounted(counts, s, at);
      if i + 1 < lostHint {
        lostHint := lostHint + 1;
      }
      if s.flags.partial && upper.flags.lost && !upper.flags.retrans && i + 1 < lostHint {
        lostHint := i + 1;
      }
      ok := true;
    }

    /** Put the halves of record `i` in place of it, moving the rest up. */
    method Insert(i: nat, ghost pos: int, lower: Seg, upper: Seg)
      requires Shape() && i < len < cap
      requires Mirrors(segs[..], head, recs) && BitsMirror(words[..], head, cap, recs)
      requires Matches(lower, LowerHalf(recs[i], pos)) && Matches(upper, UpperHalf(recs[i], pos))
      modifies this`recs, this`len, segs, words
      ensures Shape() && recs == SplitAt(old(recs), i, pos)
      ensures Mirrors(segs[..], head, recs) && BitsMirror(words[..], head, cap, recs)
    {
      hide Mirrors, BitsMirror, LowerHalf, UpperHalf;
      InsertEntries(i, pos, lower, upper);
      InsertBit(i, pos, upper.flags.sacked);
      recs := SplitAt(recs, i, pos);
      len := len + 1;
    }

    method InsertEntries(i: nat, ghost pos: int, lower: Seg, upper: Seg)
      requires Shape() && i < len < cap && Mirrors(segs[..], head, recs)
      requires Matches(lower, LowerHalf(recs[i], pos)) && Matches(upper, UpperHalf(recs[i], pos))
      modifies segs
      ensures |SplitAt(recs, i, pos)| == len + 1 && Mirrors(segs[..], head, SplitAt(recs, i, pos))
    {
      hide Mirrors, LowerHalf, UpperHalf, Matches, MovedUp;
      ghost var was := segs[..];
      ShiftEntries(i);
      ghost var mid := segs[..];
      segs[Slot(head, i, cap)] := lower;
      segs[Slot(head, i + 1, cap)] := upper;
      InsertMirrors(was, mid, head, recs, i, pos, lower, upper);
    }

    method InsertBit(i: nat, ghost pos: int, on: bool)
      requires Shape() && i < len < cap && BitsMirror(words[..], head, cap, recs)
      requires on == UpperHalf(recs[i], pos).flags.sacked
      modifies words
      ensures |SplitAt(recs, i, pos)| == len + 1
      ensures BitsMirror(words[..], head, cap, SplitAt(recs, i, pos))
    {
      hide BitsMirror, MovedFrom, UpperHalf, BitAt;
      ghost var was := words[..];
      ShiftUp(words, Slot(head, i + 1, cap), len - (i + 1), cap);
      ghost var mid := words[..];
      SetBit(words, Slot(head, i + 1, cap), on);
      InsertBits(was, mid, words[..], head, cap, recs, i, pos);
    }

    /** `ack_to`: drop or trim what lies below `una`, reporting each record it
        touches as it stood, and return the bytes removed. */
    method AckTo(una: u32, ghost pos: int) returns (removed: u32, hits: seq<Seg>)
      requires Valid() && una == Wire(pos) && Near(recs, pos)
      modifies this, segs, words
      ensures Valid() && View() == Step(old(View()), Ack(pos), cap)
      ensures removed == Removed(old(recs), pos)
      ensures AllMatch(hits, AckHits(old(recs), pos))
    {
      hide Chain, SentInOrder, Mirrors, BitsMirror, CountsAre, HintOk, UpperHalf, AllMatch;
      hide Going, Removed, AckHits, Scoreboard.AckTo;
      ghost var was := recs;
      ghost var seen: seq<Rec> := [];
      removed, hits := 0, [];
      GoingStart(was, pos);
      while len > 0
        invariant Valid() && sends == old(sends)
        invariant Going(was, recs, pos, seen, removed) && AllMatch(hits, seen)
        decreases len
      {
        MirrorsAt(segs[..], head, recs, 0);
        var s := segs[Slot(head, 0, cap)];
        GoingNear(was, recs, pos, seen, removed);
        SegOrder(s, recs, 0, pos);
        SegLength(s, recs, 0);
        if SeqLe(s.end, una) {
          MatchMore(hits, seen, s, recs[0]);
          DropGoing(was, recs, pos, seen, removed);
          hits, seen := hits + [s], seen + [recs[0]];
          removed := SatAdd(removed, s.SeqLen());
          DropHead(s);
        } else if SeqLt(s.start, una) {
          MatchMore(hits, seen, s, recs[0]);
          TrimGoing(was, recs, pos, seen, removed);
          InSpan(recs, 0);
          SerialDistance(pos, recs[0].start);
          hits, seen := hits + [s], seen + [recs[0]];
          removed := SatAdd(removed, WSub(una, s.start));
          TrimHead(s, una, pos);
          break;
        } else {
          break;
        }
      }
      GoingDone(was, recs, pos, seen, removed);
      if len == 0 {
        ResetHead();
      }
    }

    method DropHead(s: Seg)
      requires Valid() && recs != [] && Matches(s, recs[0])
      modifies this
      ensures Valid() && recs == old(recs)[1..] && sends == old(sends)
    {
      hide Chain, SentInOrder, Mirrors, BitsMirror, Total;
      DropKeeps(View(), cap, counts, s, lostHint);
      DropMirrors(segs[..], head, recs);
      DropBits(words[..], head, cap, recs);
      counts := Counted(counts, s, false);
      head := if head + 1 == cap then 0 else head + 1;
      len := len - 1;
      lostHint := if lostHint == 0 then 0 else lostHint - 1;
      recs := recs[1..];
    }

    method TrimHead(s: Seg, una: u32, ghost pos: int)
      requires Valid() && recs != [] && Matches(s, recs[0]) && Inside(recs[0], pos) && una == Wire(pos)
      modifies this, segs, words
      ensures Valid() && recs == [UpperHalf(old(recs)[0], pos)] + old(recs)[1..] && sends == old(sends)
    {
      hide Chain, SentInOrder, Mirrors, BitsMirror, Total, CountsAre;
      ghost var t := UpperHalf(recs[0], pos);
      var trimmed := UpperSeg(s, una);
      TrimMatches(s, recs, una, pos);
      TrimKeeps(View(), pos, cap, counts, s, una);
      counts := Counted(Counted(counts, s, false), trimmed, true);
      if s.flags.partial && s.sent <= WSub(una, s.start) {
        lostHint := 0;
      }
      Store(0, trimmed, t);
    }

    method ResetHead()
      requires Valid() && len == 0
      modifies this
      ensures Valid() && View() == old(View())
    {
      head, lostHint := 0, 0;
    }

    /** `sack`: clip the block to the queue, cut at its left edge if need be,
        then mark; report each record newly SACKED, as it stood. */
    method Sack(left: u32, right: u32, ghost lp: int, ghost rp: int) returns (newly: u32, hits: seq<Seg>)
      requires Valid() && left == Wire(lp) && right == Wire(rp)
      requires Near(recs, lp) && Near(recs, rp) && -HALF < rp - lp < HALF
      modifies this, segs, words
      ensures Valid() && View() == Step(old(View()), SackBlock(lp, rp), cap)
      ensures newly == Sacking.Sack(old(recs), lp, rp, cap).newly
      ensures AllMatch(hits, Sacking.Sack(old(recs), lp, rp, cap).hits)
    {
      hide Chain, SentInOrder, Mirrors, BitsMirror, CountsAre, HintOk, SackFrom;
      SerialOrder(lp, rp);
      if !SeqLt(left, right) || len == 0 {
        return 0, [];
      }
      MirrorsAt(segs[..], head, recs, 0);
      MirrorsAt(segs[..], head, recs, |recs| - 1);
      var first, last := segs[Slot(head, 0, cap)].start, segs[Slot(head, len - 1, cap)].end;
      NonEmptySpan(recs);
      SerialOrder(lp, First(recs));
      SerialOrder(Last(recs), rp);
      var l := if SeqLt(left, first) then first else left;
      var r := if SeqLt(last, right) then last else right;
      ghost var l', r' := ClipLeft(recs, lp), ClipRight(recs, rp);
      SerialOrder(l', r');
      if !SeqLt(l, r) {
        return 0, [];
      }
      newly, hits := SackClipped(l, r, l', r');
    }

    /** Cut at the block's left edge if it falls inside a record not yet SACKED and a
        slot is free; marking starts from `i`. */
    method CutLeft(l: u32, ghost lp: int) returns (i: nat)
      requires Valid() && recs != [] && First(recs) <= lp < Last(recs) && l == Wire(lp)
      modifies this, segs, words
      ensures Valid() && sends == old(sends)
      ensures var j := IndexOf(old(recs), lp);
              if CutsLeft(old(recs), j, lp) && |old(recs)| < cap
              then recs == SplitAt(old(recs), j, lp) && i == j + 1
              else recs == old(recs) && i == j
    {
      hide Chain, SentInOrder, Mirrors, BitsMirror, CountsAre, HintOk, SplitAt;
      SerialDistance(lp, First(recs));
      var f := Find(l);
      i := f.value;
      MirrorsAt(segs[..], head, recs, i);
      var s := segs[Slot(head, i, cap)];
      SegOrder(s, recs, i, lp);
      if SeqLt(s.start, l) && !s.flags.sacked {
        var ok := Split(i, l, lp);
        if ok {
          i := i + 1;
        }
      }
    }

    method SackClipped(l: u32, r: u32, ghost lp: int, ghost rp: int) returns (newly: u32, hits: seq<Seg>)
      requires Valid() && recs != [] && First(recs) <= lp < rp <= Last(recs)
      requires l == Wire(lp) && r == Wire(rp)
      modifies this, segs, words
      ensures Valid() && sends == old(sends)
      ensures var o := SackWithin(old(recs), lp, rp, cap);
              recs == o.recs && newly == o.newly && AllMatch(hits, o.hits)
    {
      hide Valid, Chain, SackFrom, AllMatch, SplitAt, Wire;
      SplitChainIf(recs, IndexOf(recs, lp), lp) by {
        ChainHere();
      }
      ChainHere();
      var i := CutLeft(l, lp);
      newly, hits := SackRun(i, l, r, lp, rp);
    }

    lemma ChainHere()
      requires Valid()
      ensures Chain(recs)
    {
    }

    method SackRun(from: nat, l: u32, r: u32, ghost lp: int, ghost rp: int) returns (newly: u32, hits: seq<Seg>)
      requires Valid() && from <= |recs| && recs != [] && First(recs) <= lp < rp <= Last(recs)
      requires l == Wire(lp) && r == Wire(rp)
      modifies this, segs, words
      ensures Valid() && sends == old(sends)
      ensures var o := SackFrom(old(recs), from, lp, rp, cap);
              recs == o.recs && newly == o.newly && AllMatch(hits, o.hits)
    {
      hide Chain, SentInOrder, Mirrors, BitsMirror, CountsAre, HintOk, SackFrom, AllMatch, Marking, SplitAt;
      ghost var o := SackFrom(recs, from, lp, rp, cap);
      ghost var seen: seq<Rec> := [];
      var i: nat := from;
      newly, hits := 0, [];
      MarkingStart(recs, from, lp, rp, cap);
      while i < len
        invariant Valid() && sends == old(sends) && i <= |recs|
        invariant recs != [] && First(recs) <= lp < rp <= Last(recs)
        invariant Marking(o, recs, i, lp, rp, cap, newly, seen) && AllMatch(hits, seen)
        decreases Remaining(recs, i), if i < |recs| && rp < recs[i].end then 1 else 0
      {
        ghost var i0, recs0 := i, recs;
        MirrorsAt(segs[..], head, recs, i);
        var s := segs[Slot(head, i, cap)];
        SegOrder(s, recs, i, rp);
        SegOrder(s, recs, i, lp);
        SegLength(s, recs, i);
        ChainAt(recs, i);
        if !SeqLt(s.start, r) {
          MarkingStops(o, recs, i, lp, rp, cap, newly, seen);
          return;
        }
        if s.flags.sacked {
          MarkingSkips(o, recs, i, lp, rp, cap, newly, seen);
          var j := NextUnsacked(i + 1);
          i := if j.Some? then j.value else len;
        } else if SeqLt(r, s.end) {
          MarkingCuts(o, recs, i, lp, rp, cap, newly, seen);
          var ok := Split(i, r, rp);
          if !ok {
            return;
          }
        } else if SeqLe(l, s.start) {
          MarkingMarks(o, recs, i, lp, rp, cap, newly, seen);
          MatchMore(hits, seen, s, recs[i]);
          SetState(i, s.flags.(sacked := true, lost := false, retrans := false, partial := false), s.sent);
          newly := SatAdd(newly, s.SeqLen());
          hits, seen := hits + [s], seen + [recs0[i]];
          i := i + 1;
        } else {
          MarkingPasses(o, recs, i, lp, rp, cap, newly, seen);
          i := i + 1;
        }
      }
      MarkingStops(o, recs, i, lp, rp, cap, newly, seen);
    }
  }

  lemma MirrorsAt(segs: seq<Seg>, head: nat, recs: seq<Rec>, i: nat)
    requires head < |segs| && |recs| <= |segs| && i < |recs| && Mirrors(segs, head, recs)
    ensures Matches(segs[Slot(head, i, |segs|)], recs[i])
  {
  }

  lemma ChainAt(recs: seq<Rec>, i: nat)
    requires Chain(recs) && i < |recs|
    ensures RecOk(recs[i])
  {
  }

  lemma {:induction false} FirstUnsacked(recs: seq<Rec>, from: nat, j: nat)
    requires from <= j <= |recs|
    requires forall k :: from <= k < j ==> recs[k].flags.sacked
    requires j < |recs| ==> !recs[j].flags.sacked
    ensures Sacking.NextUnsacked(recs, from) == j
    decreases j - from
  {
    if from < j {
      FirstUnsacked(recs, from + 1, j);
    }
  }

  /** Offsets of a record's bounds from the queue's start, as `find` computes them. */
  lemma Offsets(s: Seg, recs: seq<Rec>, i: nat)
    requires Chain(recs) && Small(recs) && i < |recs| && Matches(s, recs[i])
    ensures WSub(s.end, Wire(First(recs))) == recs[i].end - First(recs)
    ensures WSub(s.start, Wire(First(recs))) == recs[i].start - First(recs)
  {
    InSpan(recs, i);
    SerialDistance(recs[i].end, First(recs));
    SerialDistance(recs[i].start, First(recs));
  }

  lemma UniqueIndex(recs: seq<Rec>, p: int, i: nat)
    requires Chain(recs) && i < |recs| && recs[i].start <= p < recs[i].end
    ensures First(recs) <= p < Last(recs) && IndexOf(recs, p) == i
  {
    InSpan(recs, i);
    AllOrdered(recs);
  }

  /** A position between two adjacent records can only be past the last. */
  lemma Nowhere(recs: seq<Rec>, p: int, i: nat)
    requires Chain(recs) && recs != [] && i <= |recs| && First(recs) <= p
    requires 0 < i ==> recs[i - 1].end <= p
    requires i < |recs| ==> p < recs[i].start
    ensures Last(recs) <= p
  {
    if i < |recs| {
      assert false;
    }
  }

  /** A sweep that has reached index `i`. */
  function Swept(q: seq<Rec>, op: Op, i: nat): seq<Rec>
    requires i <= |q|
  {
    EachRec(q, op)[..i] + q[i..]
  }

  lemma SweepEnds(q: seq<Rec>, op: Op)
    ensures Swept(q, op, 0) == q && Swept(q, op, |q|) == EachRec(q, op)
  {
  }

  lemma SweepOne(q: seq<Rec>, op: Op, i: nat)
    requires i < |q|
    ensures Swept(q, op, i)[i] == q[i]
    ensures Swept(q, op, i + 1) == Swept(q, op, i)[i := Rewrite(q[i], op)]
  {
  }

  // ---- Splitting in place --------------------------------------------------

  function LowerSeg(s: Seg, at: u32): Seg {
    var lo := s.(end := at, flags := s.flags.(fin := false));
    if s.flags.partial && WSub(at, s.start) <= s.sent
    then lo.(flags := lo.flags.(partial := false), sent := 0)
    else lo
  }

  function UpperSeg(s: Seg, at: u32): Seg {
    if !s.flags.partial then s.(start := at)
    else if WSub(at, s.start) < s.sent then s.(start := at, sent := s.sent - WSub(at, s.start))
    else s.(start := at, flags := Unsent(s.flags), sent := 0)
  }

  /** The counters are touched only when a partial retransmission is split. */
  function SplitCounted(c: Counts, s: Seg, at: u32): Counts {
    if s.flags.partial
    then Counted(Counted(Counted(c, s, false), LowerSeg(s, at), true), UpperSeg(s, at), true)
    else c
  }

  lemma HalvesMatch(s: Seg, recs: seq<Rec>, i: nat, at: u32, pos: int)
    requires Chain(recs) && Small(recs) && i < |recs| && Matches(s, recs[i])
    requires Inside(recs[i], pos) && at == Wire(pos)
    ensures Matches(LowerSeg(s, at), LowerHalf(recs[i], pos))
    ensures Matches(UpperSeg(s, at), UpperHalf(recs[i], pos))
  {
    InSpan(recs, i);
    SerialDistance(pos, recs[i].start);
  }

  lemma SplitWidths(m: Mark, s: Rec, at: int)
    requires RecOk(s) && Inside(s, at)
    ensures !s.flags.partial ==>
              Width(m, LowerHalf(s, at)) + Width(m, UpperHalf(s, at)) == Width(m, s)
    ensures Width(m, LowerHalf(s, at)) >= 0 && Width(m, UpperHalf(s, at)) >= 0
  {
  }

  lemma SplitTotals(m: Mark, recs: seq<Rec>, i: nat, pos: int)
    requires Chain(recs) && Small(recs) && i < |recs| && Inside(recs[i], pos)
    ensures var lo, up := LowerHalf(recs[i], pos), UpperHalf(recs[i], pos);
            && Total(m, SplitAt(recs, i, pos))
               == Total(m, recs) - Width(m, recs[i]) + Width(m, lo) + Width(m, up) <= MAX_SPAN
            && 0 <= Width(m, recs[i]) <= Total(m, recs)
            && 0 <= Width(m, lo) && 0 <= Width(m, up)
            && (!recs[i].flags.partial ==> Width(m, lo) + Width(m, up) == Width(m, recs[i]))
  {
    PatchTotal(m, recs, i, [LowerHalf(recs[i], pos), UpperHalf(recs[i], pos)]);
    PairTotal(m, LowerHalf(recs[i], pos), UpperHalf(recs[i], pos));
    WidthInTotal(m, recs, i);
    SplitWidths(m, recs[i], pos);
    SplitChain(recs, i, pos);
    TotalBound(m, SplitAt(recs, i, pos));
  }

  lemma CountOne(c: Counts, t: Seg, r: Rec)
    requires Matches(t, r) && 0 < r.Len() <= MAX_SPAN && (r.flags.partial ==> r.sent <= MAX_SPAN)
    ensures Counted(c, t, true) ==
            Counts(SatAdd(c.sacked, Width(Sacked, r)), SatAdd(c.lost, Width(Lost, r)),
                   SatAdd(c.retrans, Width(Resent, r)))
  {
    SerialDistance(r.end, r.start);
  }

  lemma SplitCounts(c: Counts, s: Seg, recs: seq<Rec>, i: nat, at: u32, pos: int)
    requires Chain(recs) && Small(recs) && i < |recs| && Matches(s, recs[i])
    requires Inside(recs[i], pos) && at == Wire(pos) && CountsAre(c, recs)
    ensures CountsAre(SplitCounted(c, s, at), SplitAt(recs, i, pos))
  {
    hide Chain, Total, LowerHalf, UpperHalf, LowerSeg, UpperSeg, SplitAt, Counted;
    SplitTotals(Sacked, recs, i, pos);
    SplitTotals(Lost, recs, i, pos);
    SplitTotals(Resent, recs, i, pos);
    if s.flags.partial {
      InSpan(recs, i);
      ChainAt(recs, i);
      HalvesMatch(s, recs, i, at, pos);
      HalvesInSpan(recs[i], pos);
      CountOut(c, s, recs, i);
      var c1 := Counted(c, s, false);
      CountOne(c1, LowerSeg(s, at), LowerHalf(recs[i], pos));
      var c2 := Counted(c1, LowerSeg(s, at), true);
      CountOne(c2, UpperSeg(s, at), UpperHalf(recs[i], pos));
    }
  }

  lemma HalvesInSpan(s: Rec, at: int)
    requires RecOk(s) && Inside(s, at) && s.Len() <= MAX_SPAN
    ensures 0 < LowerHalf(s, at).Len() <= MAX_SPAN && LowerHalf(s, at).sent <= MAX_SPAN
    ensures 0 < UpperHalf(s, at).Len() <= MAX_SPAN && UpperHalf(s, at).sent <= MAX_SPAN
  {
  }

  /** The search hint after a split. */
  lemma SplitHint(recs: seq<Rec>, i: nat, pos: int, hint: nat)
    requires Chain(recs) && i < |recs| && Inside(recs[i], pos) && HintOk(hint, recs)
    ensures var s, up := recs[i], UpperHalf(recs[i], pos);
            var h := if i + 1 < hint then hint + 1 else hint;
            HintOk(if s.flags.partial && Resend(up) && i + 1 < h then i + 1 else h,
                   SplitAt(recs, i, pos))
  {
    forall k | 0 <= k <= |recs| ensures Resend(SplitAt(recs, i, pos)[k]) ==>
        Resend(recs[Origin(i, k)]) || (k == i + 1 && recs[i].flags.partial) {
      SplitIndex(recs, i, pos, k);
    }
    SplitChain(recs, i, pos);
    SplitIndex(recs, i, pos, i + 1);
  }

  /** `now` is `was` with entries `i + 1 .. len - 1` copied one slot up. */
  predicate MovedUp(now: seq<Seg>, was: seq<Seg>, head: nat, i: nat, len: nat) {
    && |now| == |was| && head < |was| && i < len < |was|
    && (forall k :: i < k < len ==> now[Slot(head, k + 1, |was|)] == was[Slot(head, k, |was|)])
    && (forall k :: 0 <= k <= i ==> now[Slot(head, k, |was|)] == was[Slot(head, k, |was|)])
  }

  lemma InsertMirrors(was: seq<Seg>, mid: seq<Seg>, head: nat, recs: seq<Rec>, i: nat, pos: int,
                      lower: Seg, upper: Seg)
    requires head < |was| && i < |recs| < |was| && Mirrors(was, head, recs)
    requires MovedUp(mid, was, head, i, |recs|)
    requires Matches(lower, LowerHalf(recs[i], pos)) && Matches(upper, UpperHalf(recs[i], pos))
    ensures var now := mid[Slot(head, i, |was|) := lower][Slot(head, i + 1, |was|) := upper];
            |SplitAt(recs, i, pos)| == |recs| + 1 && Mirrors(now, head, SplitAt(recs, i, pos))
  {
    hide Matches, LowerHalf, UpperHalf, SplitAt;
    var now := mid[Slot(head, i, |was|) := lower][Slot(head, i + 1, |was|) := upper];
    SplitIndex(recs, i, pos, i);
    forall k | 0 <= k <= |recs|
      ensures Matches(now[Slot(head, k, |was|)], SplitAt(recs, i, pos)[k])
    {
      SplitIndex(recs, i, pos, k);
      if k > i + 1 {
        assert mid[Slot(head, (k - 1) + 1, |was|)] == was[Slot(head, k - 1, |was|)];
      }
    }
  }

  /** On the ring, the shift moves exactly the bits of entries `i + 1 ..`. */
  lemma ShiftedEntry(head: nat, cap: nat, len: nat, i: nat, k: nat)
    requires head < cap && i < len < cap && k <= len
    ensures Moved(Slot(head, k, cap), Slot(head, i + 1, cap), 0, len - (i + 1), cap) ==
            Slot(head, if k <= i + 1 then k else k - 1, cap)
  {
  }

  lemma InsertBits(was: seq<Word>, mid: seq<Word>, now: seq<Word>, head: nat, cap: nat,
                   recs: seq<Rec>, i: nat, pos: int)
    requires Sized(was, cap) && Sized(mid, cap) && Sized(now, cap) && head < cap && i < |recs| < cap
    requires BitsMirror(was, head, cap, recs)
    requires MovedFrom(mid, was, Slot(head, i + 1, cap), 0, |recs| - (i + 1), cap)
    requires forall k :: 0 <= k < cap ==>
               BitAt(now, k) == if k == Slot(head, i + 1, cap) then UpperHalf(recs[i], pos).flags.sacked
                                else BitAt(mid, k)
    ensures |SplitAt(recs, i, pos)| == |recs| + 1
    ensures BitsMirror(now, head, cap, SplitAt(recs, i, pos))
  {
    hide BitAt, Moved, SplitAt;
    SplitIndex(recs, i, pos, i);
    forall k | 0 <= k <= |recs|
      ensures BitAt(now, Slot(head, k, cap)) == SplitAt(recs, i, pos)[k].flags.sacked
    {
      SplitIndex(recs, i, pos, k);
      ShiftedEntry(head, cap, |recs|, i, k);
    }
  }

  // ---- Cumulative ACK in place ---------------------------------------------

  /** Bytes a cumulative ACK of `una` takes off the queue. */
  function Removed(q: seq<Rec>, una: int): int {
    if q == [] || una <= First(q) then 0
    else (if una < Last(q) then una else Last(q)) - First(q)
  }

  predicate AllMatch(ss: seq<Seg>, rs: seq<Rec>) {
    |ss| == |rs| && forall i :: 0 <= i < |ss| ==> Matches(ss[i], rs[i])
  }

  lemma MatchMore(ss: seq<Seg>, rs: seq<Rec>, s: Seg, r: Rec)
    requires AllMatch(ss, rs) && Matches(s, r)
    ensures AllMatch(ss + [s], rs + [r])
  {
  }

  /** A cumulative ACK under way: from `was` to `cur`, having reported `seen`. */
  ghost predicate Going(was: seq<Rec>, cur: seq<Rec>, pos: int, seen: seq<Rec>, removed: int) {
    && Near(cur, pos) && Chain(was) && Small(was)
    && Scoreboard.AckTo(cur, pos) == Scoreboard.AckTo(was, pos)
    && seen + AckHits(cur, pos) == AckHits(was, pos)
    && removed + Removed(cur, pos) == Removed(was, pos)
  }

  lemma GoingStart(was: seq<Rec>, pos: int)
    requires Near(was, pos) && Chain(was) && Small(was)
    ensures Going(was, was, pos, [], 0) && AllMatch([], [])
  {
    assert [] + AckHits(was, pos) == AckHits(was, pos);
  }

  lemma GoingNear(was: seq<Rec>, cur: seq<Rec>, pos: int, seen: seq<Rec>, removed: int)
    requires Going(was, cur, pos, seen, removed) && Chain(cur)
    ensures Near(cur, pos)
    ensures removed + Removed(cur, pos) <= MAX_SPAN
  {
  }

  lemma DropGoing(was: seq<Rec>, cur: seq<Rec>, pos: int, seen: seq<Rec>, removed: int)
    requires Chain(cur) && cur != [] && cur[0].end <= pos && Going(was, cur, pos, seen, removed)
    ensures Going(was, cur[1..], pos, seen + [cur[0]], removed + cur[0].Len())
    ensures removed + cur[0].Len() <= MAX_SPAN
  {
    var rest := cur[1..];
    RemovedBound(cur, pos);
    if rest != [] {
      assert rest[0] == cur[1] && Last(rest) == Last(cur);
      InSpan(cur, 1);
      ChainSlice(cur, 1, |cur|);
    }
    RemovedBound(rest, pos);
    assert seen + AckHits(cur, pos) == seen + [cur[0]] + AckHits(rest, pos);
  }

  lemma RemovedBound(q: seq<Rec>, pos: int)
    requires Chain(q)
    ensures 0 <= Removed(q, pos) && (Small(q) ==> Removed(q, pos) <= MAX_SPAN)
  {
    if q != [] {
      NonEmptySpan(q);
    }
  }

  lemma TrimGoing(was: seq<Rec>, cur: seq<Rec>, pos: int, seen: seq<Rec>, removed: int)
    requires Chain(cur) && cur != [] && Inside(cur[0], pos) && Going(was, cur, pos, seen, removed)
    ensures Going(was, [UpperHalf(cur[0], pos)] + cur[1..], pos, seen + [cur[0]],
                  removed + pos - cur[0].start)
    ensures removed + pos - cur[0].start <= MAX_SPAN
    ensures pos <= First([UpperHalf(cur[0], pos)] + cur[1..])
  {
    var next := [UpperHalf(cur[0], pos)] + cur[1..];
    InSpan(cur, 0);
    RemovedBound(was, pos);
    assert AckHits(next, pos) == [] && Removed(next, pos) == 0;
    assert Last(next) == Last(cur);
    assert seen + AckHits(cur, pos) == seen + [cur[0]] + AckHits(next, pos);
  }

  lemma GoingDone(was: seq<Rec>, cur: seq<Rec>, pos: int, seen: seq<Rec>, removed: int)
    requires Going(was, cur, pos, seen, removed) && (cur == [] || pos <= First(cur))
    ensures cur == Scoreboard.AckTo(was, pos) && seen == AckHits(was, pos)
    ensures removed == Removed(was, pos)
  {
  }

  lemma DropKeeps(b: Board, cap: nat, c: Counts, s: Seg, hint: nat)
    requires Inv(b, cap) && Small(b.recs) && b.recs != [] && Matches(s, b.recs[0])
    requires CountsAre(c, b.recs) && HintOk(hint, b.recs)
    ensures Inv(b.(recs := b.recs[1..]), cap) && Small(b.recs[1..])
    ensures CountsAre(Counted(c, s, false), b.recs[1..])
    ensures HintOk(if hint == 0 then 0 else hint - 1, b.recs[1..])
  {
    ChainSlice(b.recs, 1, |b.recs|);
    OrderSuffix(b.recs, b.nextXmit);
    CountOut(c, s, b.recs, 0);
    if |b.recs| > 1 {
      assert b.recs[1..][0] == b.recs[1] && Last(b.recs[1..]) == Last(b.recs);
    }
  }

  lemma DropMirrors(segs: seq<Seg>, head: nat, recs: seq<Rec>)
    requires head < |segs| && recs != [] && |recs| <= |segs| && Mirrors(segs, head, recs)
    ensures Mirrors(segs, if head + 1 == |segs| then 0 else head + 1, recs[1..])
  {
    var h, t := if head + 1 == |segs| then 0 else head + 1, recs[1..];
    forall i | 0 <= i < |t| ensures Matches(segs[Slot(h, i, |segs|)], t[i]) {
      assert Slot(h, i, |segs|) == Slot(head, i + 1, |segs|) && t[i] == recs[i + 1];
    }
  }

  lemma DropBits(ws: seq<Word>, head: nat, cap: nat, recs: seq<Rec>)
    requires Sized(ws, cap) && head < cap && recs != [] && |recs| <= cap
    requires BitsMirror(ws, head, cap, recs)
    ensures BitsMirror(ws, if head + 1 == cap then 0 else head + 1, cap, recs[1..])
  {
    var h, t := if head + 1 == cap then 0 else head + 1, recs[1..];
    forall i | 0 <= i < |t| ensures BitAt(ws, Slot(h, i, cap)) == t[i].flags.sacked {
      assert Slot(h, i, cap) == Slot(head, i + 1, cap) && t[i] == recs[i + 1];
    }
  }

  lemma TrimMatches(s: Seg, recs: seq<Rec>, una: u32, pos: int)
    requires Chain(recs) && Small(recs) && recs != [] && Matches(s, recs[0])
    requires Inside(recs[0], pos) && una == Wire(pos)
    ensures Matches(UpperSeg(s, una), UpperHalf(recs[0], pos))
    ensures WSub(una, s.start) == pos - recs[0].start
  {
    InSpan(recs, 0);
    SerialDistance(pos, recs[0].start);
  }

  lemma TrimKeeps(b: Board, pos: int, cap: nat, c: Counts, s: Seg, una: u32)
    requires Inv(b, cap) && Small(b.recs) && b.recs != [] && Matches(s, b.recs[0])
    requires Inside(b.recs[0], pos) && una == Wire(pos) && CountsAre(c, b.recs)
    ensures var r := b.recs[0 := UpperHalf(b.recs[0], pos)];
            && r == [UpperHalf(b.recs[0], pos)] + b.recs[1..]
            && Inv(b.(recs := r), cap) && Small(r)
            && CountsAre(Counted(Counted(c, s, false), UpperSeg(s, una), true), r)
  {
    hide UpperHalf, UpperSeg, Counted, CountsAre, SentInOrder, Total;
    var r := b.recs[0 := UpperHalf(b.recs[0], pos)];
    AckChain(b.recs, pos);
    AckOrder(b.recs, pos, b.nextXmit);
    assert r == [UpperHalf(b.recs[0], pos)] + b.recs[1..];
    TrimMatches(s, b.recs, una, pos);
    CountOut(c, s, b.recs, 0);
    CountIn(Counted(c, s, false), UpperSeg(s, una), b.recs, r, 0);
  }

  // ---- Marking a block in place --------------------------------------------

  /** The marking loop under way: at record `i` of `cur`, `newly` bytes and the
      records `seen` so far, with outcome `o` ahead. */
  ghost predicate Marking(o: SackOut, cur: seq<Rec>, i: nat, l: int, r: int, cap: nat,
                          newly: int, seen: seq<Rec>)
  {
    && Chain(cur) && i <= |cur| && o.newly <= MAX_SPAN
    && var rest := SackFrom(cur, i, l, r, cap);
       && rest.recs == o.recs && newly + rest.newly == o.newly && seen + rest.hits == o.hits
  }

  lemma MarkingStart(recs: seq<Rec>, i: nat, l: int, r: int, cap: nat)
    requires Chain(recs) && Small(recs) && recs != [] && i <= |recs|
    ensures Marking(SackFrom(recs, i, l, r, cap), recs, i, l, r, cap, 0, []) && AllMatch([], [])
  {
    var o := SackFrom(recs, i, l, r, cap);
    SackFromNewly(recs, i, l, r, cap);
    SackFromChain(recs, i, l, r, cap);
    TotalBound(Sacked, recs);
    TotalBound(Sacked, o.recs);
    assert [] + o.hits == o.hits;
  }

  lemma MarkingStops(o: SackOut, cur: seq<Rec>, i: nat, l: int, r: int, cap: nat, newly: int, seen: seq<Rec>)
    requires Marking(o, cur, i, l, r, cap, newly, seen)
    requires i == |cur| || r <= cur[i].start
    ensures o == SackOut(cur, newly, seen)
  {
  }

  lemma MarkingSkips(o: SackOut, cur: seq<Rec>, i: nat, l: int, r: int, cap: nat, newly: int, seen: seq<Rec>)
    requires Marking(o, cur, i, l, r, cap, newly, seen)
    requires i < |cur| && cur[i].start < r && cur[i].flags.sacked
    ensures var j := Sacking.NextUnsacked(cur, i + 1);
            && Marking(o, cur, j, l, r, cap, newly, seen)
            && 0 <= Remaining(cur, j) < Remaining(cur, i)
  {
    RemainingDrops(cur, i, Sacking.NextUnsacked(cur, i + 1));
  }

  lemma MarkingCuts(o: SackOut, cur: seq<Rec>, i: nat, l: int, r: int, cap: nat, newly: int, seen: seq<Rec>)
    requires Marking(o, cur, i, l, r, cap, newly, seen)
    requires i < |cur| && cur[i].start < r < cur[i].end && !cur[i].flags.sacked
    ensures |cur| >= cap ==> o == SackOut(cur, newly, seen)
    ensures |cur| < cap ==>
              var next := SplitAt(cur, i, r);
              && |next| == |cur| + 1 && First(next) == First(cur) && Last(next) == Last(cur)
              && Marking(o, next, i, l, r, cap, newly, seen)
              && Remaining(next, i) == Remaining(cur, i) >= 0 && next[i].end == r
  {
    SplitChain(cur, i, r);
    SplitRemaining(cur, i, r);
    RemainingDrops(cur, i, i + 1);
  }

  lemma MarkingMarks(o: SackOut, cur: seq<Rec>, i: nat, l: int, r: int, cap: nat, newly: int, seen: seq<Rec>)
    requires Marking(o, cur, i, l, r, cap, newly, seen)
    requires i < |cur| && l <= cur[i].start && cur[i].start < r && cur[i].end <= r && !cur[i].flags.sacked
    ensures var next := cur[i := SackRec(cur[i])];
            && First(next) == First(cur) && Last(next) == Last(cur)
            && Marking(o, next, i + 1, l, r, cap, newly + cur[i].Len(), seen + [cur[i]])
            && newly + cur[i].Len() <= MAX_SPAN
            && 0 <= Remaining(next, i + 1) < Remaining(cur, i)
  {
    var next := cur[i := SackRec(cur[i])];
    UpdateChain(cur, i, SackRec(cur[i]));
    RemainingDrops(cur, i, i + 1);
    RemainingDrops(next, i, i + 1);
    SackFromNewly(next, i + 1, l, r, cap);
    var rest := SackFrom(next, i + 1, l, r, cap);
    assert seen + ([cur[i]] + rest.hits) == seen + [cur[i]] + rest.hits;
  }

  lemma MarkingPasses(o: SackOut, cur: seq<Rec>, i: nat, l: int, r: int, cap: nat, newly: int, seen: seq<Rec>)
    requires Marking(o, cur, i, l, r, cap, newly, seen)
    requires i < |cur| && cur[i].start < l && cur[i].start < r && cur[i].end <= r && !cur[i].flags.sacked
    ensures Marking(o, cur, i + 1, l, r, cap, newly, seen)
    ensures 0 <= Remaining(cur, i + 1) < Remaining(cur, i)
  {
    RemainingDrops(cur, i, i + 1);
  }

  lemma SplitChainIf(recs: seq<Rec>, i: nat, p: int)
    requires Chain(recs) && i < |recs|
    ensures Inside(recs[i], p) ==>
              var next := SplitAt(recs, i, p);
              |next| == |recs| + 1 && First(next) == First(recs) && Last(next) == Last(recs)
  {
    if Inside(recs[i], p) {
      SplitChain(recs, i, p);
    }
  }

  lemma UpdateKeeps(b: Board, i: nat, t: Rec, cap: nat)
    requires Inv(b, cap) && Small(b.recs) && i < |b.recs|
    requires RecOk(t) && SameExtent(b.recs[i], t) && SameSending(b.recs[i], t)
    ensures Inv(b.(recs := b.recs[i := t]), cap) && Small(b.recs[i := t])
  {
    UpdateChain(b.recs, i, t);
    OrderKept(b.recs, b.recs[i := t], b.nextXmit);
  }

  lemma PushTotals(recs: seq<Rec>, r: Rec, c: Counts, hint: nat)
    requires !r.flags.sacked && !r.flags.lost && !r.flags.retrans
    requires CountsAre(c, recs) && HintOk(hint, recs)
    ensures CountsAre(c, recs + [r]) && HintOk(hint, recs + [r])
  {
    forall m: Mark ensures Total(m, recs + [r]) == Total(m, recs) {
      TotalAppend(m, recs, [r]);
      SingleTotal(m, r);
    }
  }

  lemma PushSpan(recs: seq<Rec>, r: Rec)
    requires r.end - (if recs == [] then r.start else First(recs)) <= MAX_SPAN
    ensures Small(recs + [r])
  {
  }
}
