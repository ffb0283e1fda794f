/** The retransmission queue as a value: a chain of segment records over
    unbounded stream positions, and what each queue operation does to it.

    `RtxQueue` keeps the same records in a circular array with 32-bit sequence
    numbers; its methods are proved equal to the functions below. */
module Scoreboard {

  /** Per-segment state bits. */
  datatype Flags = Flags(sacked: bool, lost: bool, retrans: bool,
                         ever: bool, fin: bool, partial: bool)

  /** One transmitted segment, covering positions `start .. end`. `xmit` is the
      (unbounded) number of its latest transmission. */
  datatype Rec = Rec(start: int, end: int, ts: nat, xmit: nat, flags: Flags, sent: nat) {
    function Len(): int { end - start }

    function Payload(): int { if flags.fin then Len() - 1 else Len() }

    /** Bytes a retransmission put back in flight: just the prefix of a partial one. */
    function RetransLen(): int { if flags.partial then sent else Len() }
  }

  // ---- Structural invariant ------------------------------------------------

  predicate RecOk(s: Rec) {
    && s.start < s.end
    && (s.flags.sacked ==> !s.flags.lost && !s.flags.retrans)
    && (s.flags.retrans ==> s.flags.ever)
    && (s.flags.partial ==> s.flags.retrans && 0 < s.sent < s.Payload())
    && (!s.flags.partial ==> s.sent == 0)
  }

  /** Records are well formed, contiguous, and only the last may hold a FIN. */
  predicate Chain(q: seq<Rec>) {
    && (forall i :: 0 <= i < |q| ==> RecOk(q[i]))
    && (forall i :: 0 < i < |q| ==> q[i - 1].end == q[i].start)
    && (forall i :: 0 <= i < |q| - 1 ==> !q[i].flags.fin)
  }

  function First(q: seq<Rec>): int
    requires q != []
  {
    q[0].start
  }

  function Last(q: seq<Rec>): int
    requires q != []
  {
    q[|q| - 1].end
  }

  lemma {:induction false} Ordered(q: seq<Rec>, i: nat, j: nat)
    requires Chain(q) && i < j < |q|
    ensures q[i].end <= q[j].start
    decreases j - i
  {
    if i + 1 < j {
      Ordered(q, i + 1, j);
    }
  }

  lemma AllOrdered(q: seq<Rec>)
    requires Chain(q)
    ensures forall i, j :: 0 <= i < j < |q| ==> q[i].end <= q[j].start
  {
    forall i, j | 0 <= i < j < |q| ensures q[i].end <= q[j].start {
      Ordered(q, i, j);
    }
  }

  /** Two chains that meet form a chain. */
  lemma ChainAppend(a: seq<Rec>, b: seq<Rec>)
    requires Chain(a) && Chain(b)
    requires a != [] && b != [] ==> Last(a) == First(b) && !a[|a| - 1].flags.fin
    ensures Chain(a + b)
  {
    var c := a + b;
    forall i | 0 < i < |c| ensures c[i - 1].end == c[i].start {
      if i < |a| {
        assert c[i] == a[i] && c[i - 1] == a[i - 1];
      } else if i == |a| {
        assert c[i - 1] == a[|a| - 1] && c[i] == b[0];
      } else {
        assert c[i] == b[i - |a|] && c[i - 1] == b[i - |a| - 1];
      }
    }
  }

  /** Any stretch of a chain is a chain. */
  lemma ChainSlice(q: seq<Rec>, i: nat, j: nat)
    requires Chain(q) && i <= j <= |q|
    ensures Chain(q[i..j])
  {
    var c := q[i..j];
    forall k | 0 < k < |c| ensures c[k - 1].end == c[k].start {
      assert c[k] == q[i + k] && c[k - 1] == q[i + k - 1];
    }
  }

  // ---- Byte-level view -----------------------------------------------------

  /** The three marks a byte can carry. */
  datatype Mark = Sacked | Lost | Resent

  /** How many bytes of `s`, counted from its start, carry the mark. */
  function Width(m: Mark, s: Rec): int {
    match m
    case Sacked => if s.flags.sacked then s.Len() else 0
    case Lost => if s.flags.lost then s.Len() else 0
    case Resent => if s.flags.retrans then s.RetransLen() else 0
  }

  predicate Covers(m: Mark, s: Rec, p: int) {
    s.start <= p < s.start + Width(m, s)
  }

  /** Position `p` carries mark `m`. */
  ghost predicate Marked(m: Mark, q: seq<Rec>, p: int) {
    exists i :: 0 <= i < |q| && Covers(m, q[i], p)
  }

  /** The bytes counted for a mark: what the queue's counters hold. */
  function Total(m: Mark, q: seq<Rec>): int {
    if q == [] then 0 else Width(m, q[0]) + Total(m, q[1..])
  }

  lemma {:induction false} TotalAppend(m: Mark, a: seq<Rec>, b: seq<Rec>)
    ensures Total(m, a + b) == Total(m, a) + Total(m, b)
  {
    if a == [] {
      assert a + b == b;
    } else {
      assert (a + b)[1..] == a[1..] + b;
      TotalAppend(m, a[1..], b);
    }
  }

  lemma MarkedAppend(m: Mark, a: seq<Rec>, b: seq<Rec>, p: int)
    ensures Marked(m, a + b, p) <==> Marked(m, a, p) || Marked(m, b, p)
  {
    var c := a + b;
    if Marked(m, a, p) {
      var i :| 0 <= i < |a| && Covers(m, a[i], p);
      assert c[i] == a[i];
    }
    if Marked(m, b, p) {
      var i :| 0 <= i < |b| && Covers(m, b[i], p);
      assert c[|a| + i] == b[i];
    }
  }

  /** The positions carrying a mark, as a set. */
  ghost function Bytes(m: Mark, q: seq<Rec>): set<int> {
    if q == [] then {} else Interval(q[0].start, q[0].start + Width(m, q[0])) + Bytes(m, q[1..])
  }

  ghost function Interval(a: int, b: int): (r: set<int>)
    ensures forall p :: p in r <==> a <= p < b
    ensures a <= b ==> |r| == b - a
    decreases b - a
  {
    if a >= b then {} else Interval(a, b - 1) + {b - 1}
  }

  lemma {:induction false} BytesAreMarked(m: Mark, q: seq<Rec>, p: int)
    ensures p in Bytes(m, q) <==> Marked(m, q, p)
  {
    if q != [] {
      BytesAreMarked(m, q[1..], p);
      MarkedAppend(m, [q[0]], q[1..], p);
      assert q == [q[0]] + q[1..];
      assert Marked(m, [q[0]], p) <==> Covers(m, [q[0]][0], p);
    }
  }

  lemma WidthBound(m: Mark, s: Rec)
    requires RecOk(s)
    ensures 0 <= Width(m, s) <= s.Len()
  {
  }

  lemma MarkedRange(m: Mark, q: seq<Rec>, p: int)
    requires Chain(q) && Marked(m, q, p)
    ensures q != [] && First(q) <= p < Last(q)
  {
    var i :| 0 <= i < |q| && Covers(m, q[i], p);
    WidthBound(m, q[i]);
    if i > 0 {
      Ordered(q, 0, i);
    }
    if i < |q| - 1 {
      Ordered(q, i, |q| - 1);
    }
  }

  /** The counters are the sizes of the byte sets. */
  lemma {:induction false} TotalIsSize(m: Mark, q: seq<Rec>)
    requires Chain(q)
    ensures Total(m, q) == |Bytes(m, q)|
  {
    if q != [] {
      var t, hd := q[1..], Interval(q[0].start, q[0].start + Width(m, q[0]));
      ChainSlice(q, 1, |q|);
      TotalIsSize(m, t);
      WidthBound(m, q[0]);
      forall p | p in Bytes(m, t) ensures p !in hd {
        BytesAreMarked(m, t, p);
        MarkedRange(m, t, p);
      }
      assert hd !! Bytes(m, t);
    }
  }

  // ---- Replacing one record ------------------------------------------------

  /** `q` with record `i` replaced by the records `mid`. */
  function Patch(q: seq<Rec>, i: nat, mid: seq<Rec>): seq<Rec>
    requires i < |q|
  {
    q[..i] + mid + q[i + 1..]
  }

  /** `mid` may stand in for the single record `s`. */
  predicate Fits(s: Rec, mid: seq<Rec>) {
    && mid != []
    && Chain(mid)
    && First(mid) == s.start
    && Last(mid) == s.end
    && (mid[|mid| - 1].flags.fin ==> s.flags.fin)
  }

  lemma PatchChain(q: seq<Rec>, i: nat, mid: seq<Rec>)
    requires Chain(q) && i < |q| && Fits(q[i], mid)
    ensures Chain(Patch(q, i, mid))
    ensures |Patch(q, i, mid)| == |q| - 1 + |mid|
    ensures First(Patch(q, i, mid)) == First(q) && Last(Patch(q, i, mid)) == Last(q)
  {
    ChainSlice(q, 0, i);
    ChainSlice(q, i + 1, |q|);
    if i > 0 {
      assert q[..i][i - 1] == q[i - 1];
    }
    ChainAppend(q[..i], mid);
    if i + 1 < |q| {
      assert q[i + 1..][0] == q[i + 1];
    }
    ChainAppend(q[..i] + mid, q[i + 1..]);
  }

  lemma PatchMarked(m: Mark, q: seq<Rec>, i: nat, mid: seq<Rec>, p: int)
    requires i < |q|
    ensures Marked(m, Patch(q, i, mid), p) <==>
            Marked(m, q[..i], p) || Marked(m, mid, p) || Marked(m, q[i + 1..], p)
  {
    MarkedAppend(m, q[..i], mid, p);
    MarkedAppend(m, q[..i] + mid, q[i + 1..], p);
  }

  /** Outside record `i` a patch changes nothing. */
  lemma PatchElsewhere(m: Mark, q: seq<Rec>, i: nat, mid: seq<Rec>, p: int)
    requires Chain(q) && i < |q| && Fits(q[i], mid)
    requires !(q[i].start <= p < q[i].end)
    ensures Marked(m, Patch(q, i, mid), p) <==> Marked(m, q, p)
  {
    PatchMarked(m, q, i, mid, p);
    PatchMarked(m, q, i, [q[i]], p);
    assert Patch(q, i, [q[i]]) == q;
    if Marked(m, mid, p) {
      MarkedRange(m, mid, p);
    }
    WidthBound(m, q[i]);
    assert !Marked(m, [q[i]], p);
  }

  /** Inside record `i` only the patch counts. */
  lemma PatchInside(m: Mark, q: seq<Rec>, i: nat, mid: seq<Rec>, p: int)
    requires Chain(q) && i < |q|
    requires q[i].start <= p < q[i].end
    ensures Marked(m, Patch(q, i, mid), p) <==> Marked(m, mid, p)
    ensures Marked(m, q, p) <==> Covers(m, q[i], p)
  {
    PatchMarked(m, q, i, mid, p);
    PatchMarked(m, q, i, [q[i]], p);
    assert Patch(q, i, [q[i]]) == q;
    assert Marked(m, [q[i]], p) <==> Covers(m, [q[i]][0], p);
    AllOrdered(q);
    forall k | 0 <= k < |q| && k != i
      ensures !Covers(m, q[k], p)
    {
      WidthBound(m, q[k]);
    }
    assert forall k :: 0 <= k < i ==> q[..i][k] == q[k];
    var rest := q[i + 1..];
    assert forall k :: 0 <= k < |rest| ==> rest[k] == q[i + 1 + k];
  }

  lemma PatchTotal(m: Mark, q: seq<Rec>, i: nat, mid: seq<Rec>)
    requires i < |q|
    ensures Total(m, Patch(q, i, mid)) == Total(m, q) - Width(m, q[i]) + Total(m, mid)
  {
    TotalAppend(m, q[..i], mid);
    TotalAppend(m, q[..i] + mid, q[i + 1..]);
    TotalAppend(m, q[..i], [q[i]]);
    TotalAppend(m, q[..i] + [q[i]], q[i + 1..]);
    assert q == q[..i] + [q[i]] + q[i + 1..];
  }

  lemma PairTotal(m: Mark, a: Rec, b: Rec)
    ensures Total(m, [a, b]) == Width(m, a) + Width(m, b)
  {
    assert [a, b] == [a] + [b];
    TotalAppend(m, [a], [b]);
    SingleTotal(m, a);
    SingleTotal(m, b);
  }

  lemma SingleTotal(m: Mark, s: Rec)
    ensures Total(m, [s]) == Width(m, s)
  {
    assert Total(m, [s][1..]) == 0;
  }

  // ---- Splitting -----------------------------------------------------------

  /** The part of `s` below `at`; a FIN stays with the upper part, and so does
      the resent prefix's end when the prefix reaches past `at`. */
  function LowerHalf(s: Rec, at: int): Rec {
    var lo := s.(end := at, flags := s.flags.(fin := false));
    if s.flags.partial && at - s.start <= s.sent
    then lo.(flags := lo.flags.(partial := false), sent := 0)
    else lo
  }

  /** The part of `s` from `at` on. A part the resent prefix does not reach is lost. */
  function UpperHalf(s: Rec, at: int): Rec {
    if !s.flags.partial then s.(start := at)
    else if at - s.start < s.sent then s.(start := at, sent := s.sent - (at - s.start))
    else s.(start := at, flags := Unsent(s.flags), sent := 0)
  }

  /** Flags of bytes whose resent prefix has been dealt with: lost, to be resent. */
  function Unsent(f: Flags): Flags {
    f.(lost := true, retrans := false, partial := false)
  }

  function SplitAt(q: seq<Rec>, i: nat, at: int): seq<Rec>
    requires i < |q|
  {
    Patch(q, i, [LowerHalf(q[i], at), UpperHalf(q[i], at)])
  }

  predicate Inside(s: Rec, at: int) {
    s.start < at < s.end
  }

  /** Bytes of `s` that a boundary at `at` gives up on: the tail of a partial
      retransmission, once `at` has passed the resent prefix. */
  predicate FreedTail(s: Rec, at: int, p: int) {
    s.flags.partial && s.start + s.sent <= at <= p < s.end
  }

  lemma HalvesFit(s: Rec, at: int)
    requires RecOk(s) && Inside(s, at)
    ensures Fits(s, [LowerHalf(s, at), UpperHalf(s, at)])
  {
    var mid := [LowerHalf(s, at), UpperHalf(s, at)];
    assert RecOk(mid[0]) && RecOk(mid[1]);
  }

  lemma HalvesMarked(m: Mark, s: Rec, at: int, p: int)
    requires RecOk(s) && Inside(s, at)
    ensures Marked(m, [LowerHalf(s, at), UpperHalf(s, at)], p) <==>
            Covers(m, s, p) || (m == Lost && FreedTail(s, at, p))
  {
    var mid := [LowerHalf(s, at), UpperHalf(s, at)];
    assert Marked(m, mid, p) <==> Covers(m, mid[0], p) || Covers(m, mid[1], p);
  }

  lemma SplitChain(q: seq<Rec>, i: nat, at: int)
    requires Chain(q) && i < |q| && Inside(q[i], at)
    ensures Chain(SplitAt(q, i, at))
    ensures First(SplitAt(q, i, at)) == First(q) && Last(SplitAt(q, i, at)) == Last(q)
    ensures |SplitAt(q, i, at)| == |q| + 1
  {
    HalvesFit(q[i], at);
    PatchChain(q, i, [LowerHalf(q[i], at), UpperHalf(q[i], at)]);
  }

  /** Splitting changes no byte's SACKED or resent mark, and marks lost exactly
      the tail of a partial retransmission that the cut leaves behind. */
  lemma SplitMarks(m: Mark, q: seq<Rec>, i: nat, at: int, p: int)
    requires Chain(q) && i < |q| && Inside(q[i], at)
    ensures Marked(m, SplitAt(q, i, at), p) <==>
            Marked(m, q, p) || (m == Lost && FreedTail(q[i], at, p))
  {
    var mid := [LowerHalf(q[i], at), UpperHalf(q[i], at)];
    HalvesFit(q[i], at);
    if q[i].start <= p < q[i].end {
      PatchInside(m, q, i, mid, p);
      HalvesMarked(m, q[i], at, p);
    } else {
      PatchElsewhere(m, q, i, mid, p);
    }
  }

  // ---- Changing one record's marks -----------------------------------------

  /** A flag change that keeps the record's extent. */
  predicate SameExtent(s: Rec, t: Rec) {
    s.start == t.start && s.end == t.end && s.flags.fin == t.flags.fin
  }

  lemma UpdateIsPatch(q: seq<Rec>, i: nat, t: Rec)
    requires i < |q|
    ensures q[i := t] == Patch(q, i, [t])
  {
  }

  lemma UpdateChain(q: seq<Rec>, i: nat, t: Rec)
    requires Chain(q) && i < |q| && RecOk(t) && SameExtent(q[i], t)
    ensures Chain(q[i := t])
    ensures First(q[i := t]) == First(q) && Last(q[i := t]) == Last(q)
  {
  }

  lemma UpdateMarks(m: Mark, q: seq<Rec>, i: nat, t: Rec, p: int)
    requires Chain(q) && i < |q| && RecOk(t) && SameExtent(q[i], t)
    ensures Marked(m, q[i := t], p) <==>
            if q[i].start <= p < q[i].end then Covers(m, t, p) else Marked(m, q, p)
  {
    UpdateIsPatch(q, i, t);
    var mid := [t];
    assert Fits(q[i], mid);
    assert Marked(m, mid, p) <==> Covers(m, mid[0], p);
    if q[i].start <= p < q[i].end {
      PatchInside(m, q, i, mid, p);
    } else {
      PatchElsewhere(m, q, i, mid, p);
    }
  }

  lemma UpdateTotal(m: Mark, q: seq<Rec>, i: nat, t: Rec)
    requires i < |q|
    ensures Total(m, q[i := t]) == Total(m, q) - Width(m, q[i]) + Width(m, t)
  {
    UpdateIsPatch(q, i, t);
    PatchTotal(m, q, i, [t]);
  }

  /** `mark_lost`: the segment is lost, and its retransmission, if any, too. */
  function LostRec(s: Rec): Rec {
    if s.flags.sacked || (s.flags.lost && !s.flags.retrans) then s
    else s.(flags := Unsent(s.flags), sent := 0)
  }

  function UnmarkRec(s: Rec): Rec {
    if s.flags.lost && !s.flags.retrans then s.(flags := s.flags.(lost := false)) else s
  }

  function UnsackRec(s: Rec): Rec {
    s.(flags := s.flags.(sacked := false))
  }

  function SackRec(s: Rec): Rec {
    s.(flags := s.flags.(sacked := true, lost := false, retrans := false, partial := false),
       sent := 0)
  }

  /** A retransmission of the first `sent` bytes of `s`, or of all of it if `sent` is 0. */
  function ResentRec(s: Rec, now: nat, sent: nat, xmit: nat): Rec {
    s.(flags := s.flags.(retrans := true, ever := true, partial := sent > 0),
       sent := sent, ts := now, xmit := xmit)
  }

  // ---- Cumulative ACK ------------------------------------------------------

  /** Records wholly below `una` go; one it cuts keeps the part from `una` on. */
  function AckTo(q: seq<Rec>, una: int): seq<Rec> {
    if q == [] || una <= q[0].start then q
    else if q[0].end <= una then AckTo(q[1..], una)
    else [UpperHalf(q[0], una)] + q[1..]
  }

  /** The records `ack_to` reports as it goes, in order, before it changes them. */
  function AckHits(q: seq<Rec>, una: int): seq<Rec> {
    if q == [] || una <= q[0].start then []
    else [q[0]] + if q[0].end <= una then AckHits(q[1..], una) else []
  }

  lemma {:induction false} AckChain(q: seq<Rec>, una: int)
    requires Chain(q)
    ensures Chain(AckTo(q, una)) && |AckTo(q, una)| <= |q|
    ensures AckTo(q, una) == [] <==> q == [] || Last(q) <= una
    ensures AckTo(q, una) != [] ==>
              && Last(AckTo(q, una)) == Last(q)
              && First(AckTo(q, una)) == if una < First(q) then First(q) else una
  {
    if q == [] || una <= q[0].start {
      if q != [] && |q| > 1 { Ordered(q, 0, |q| - 1); }
    } else if q[0].end <= una {
      ChainSlice(q, 1, |q|);
      AckChain(q[1..], una);
    } else {
      if |q| > 1 { Ordered(q, 0, |q| - 1); }
      TrimChain(q, una);
    }
  }

  lemma TrimChain(q: seq<Rec>, una: int)
    requires Chain(q) && q != [] && Inside(q[0], una)
    ensures var r := [UpperHalf(q[0], una)] + q[1..];
            Chain(r) && First(r) == una && Last(r) == Last(q)
  {
    hide Chain, SplitAt;
    TrimIsUpper(q, una);
    SplitChain(q, 0, una);
    var s := SplitAt(q, 0, una);
    ChainSlice(s, 1, |s|);
    assert s[1..|s|] == s[1..];
  }

  /** Trimming the head drops the lower half of the split at `una`. */
  lemma TrimIsUpper(q: seq<Rec>, una: int)
    requires q != []
    ensures [UpperHalf(q[0], una)] + q[1..] == SplitAt(q, 0, una)[1..]
  {
  }

  lemma {:induction false} DropHeadMarks(m: Mark, q: seq<Rec>, p: int)
    requires Chain(q) && q != [] && q[0].end <= p
    ensures Marked(m, q[1..], p) <==> Marked(m, q, p)
  {
    MarkedAppend(m, [q[0]], q[1..], p);
    assert q == [q[0]] + q[1..];
    WidthBound(m, q[0]);
    assert !Marked(m, [q[0]], p);
  }

  /** From `una` on, a cumulative ACK changes no byte's SACKED or resent mark,
      and marks lost exactly the tail of a partial retransmission whose resent
      prefix it covers. */
  lemma {:induction false} AckMarks(m: Mark, q: seq<Rec>, una: int, p: int)
    requires Chain(q) && una <= p
    ensures Marked(m, AckTo(q, una), p) <==>
            || Marked(m, q, p)
            || (m == Lost && exists i :: 0 <= i < |q| && Inside(q[i], una) && FreedTail(q[i], una, p))
  {
    AllOrdered(q);
    if q == [] || una <= q[0].start {
    } else if q[0].end <= una {
      ChainSlice(q, 1, |q|);
      AckMarks(m, q[1..], una, p);
      DropHeadMarks(m, q, p);
      assert forall i :: 0 < i < |q| ==> q[i] == q[1..][i - 1];
    } else {
      TrimMarks(m, q, una, p);
    }
  }

  lemma TrimMarks(m: Mark, q: seq<Rec>, una: int, p: int)
    requires Chain(q) && q != [] && Inside(q[0], una) && una <= p
    ensures Marked(m, [UpperHalf(q[0], una)] + q[1..], p) <==>
            Marked(m, q, p) || (m == Lost && FreedTail(q[0], una, p))
  {
    hide Chain, Marked;
    var s := SplitAt(q, 0, una);
    SplitMarks(m, q, 0, una, p);
    TrimIsUpper(q, una);
    SplitChain(q, 0, una);
    assert s[0] == LowerHalf(q[0], una);
    DropHeadMarks(m, s, p);
  }
}
