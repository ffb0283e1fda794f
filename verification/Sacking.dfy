/** Processing one SACK block: which bytes it marks, and when the marking is
    complete although the queue has room for only so many splits. */
module Sacking {
  import opened Scoreboard

  /** What a block did: the new records, the bytes newly SACKED, and the records
      reported to the caller, as they stood before they were marked. */
  datatype SackOut = SackOut(recs: seq<Rec>, newly: int, hits: seq<Rec>)

  /** First index at or after `i` that is not SACKED, or the queue's length. */
  function NextUnsacked(q: seq<Rec>, i: nat): (j: nat)
    requires i <= |q|
    ensures i <= j <= |q|
    ensures forall k :: i <= k < j ==> q[k].flags.sacked
    ensures j < |q| ==> !q[j].flags.sacked
    decreases |q| - i
  {
    if i == |q| || !q[i].flags.sacked then i else NextUnsacked(q, i + 1)
  }

  /** Index of the record containing `p`. */
  function IndexOf(q: seq<Rec>, p: int): (i: nat)
    requires Chain(q) && q != [] && First(q) <= p < Last(q)
    ensures i < |q| && q[i].start <= p < q[i].end
  {
    if p < q[0].end then 0
    else (ChainSlice(q, 1, |q|); assert q[1..][0] == q[1]; 1 + IndexOf(q[1..], p))
  }

  /** Bytes from record `i` to the end of the queue. Splits leave it alone, so
      it bounds a walk that lengthens the queue as it goes. */
  function Remaining(q: seq<Rec>, i: nat): int
    requires i <= |q|
  {
    if i < |q| then Last(q) - q[i].start else 0
  }

  lemma RemainingDrops(q: seq<Rec>, i: nat, j: nat)
    requires Chain(q) && i < j <= |q|
    ensures 0 <= Remaining(q, j) < Remaining(q, i)
  {
    AllOrdered(q);
    assert RecOk(q[i]) && RecOk(q[|q| - 1]);
  }

  lemma SplitRemaining(q: seq<Rec>, i: nat, at: int)
    requires Chain(q) && i < |q| && Inside(q[i], at)
    ensures Remaining(SplitAt(q, i, at), i) == Remaining(q, i)
    ensures SplitAt(q, i, at)[i] == LowerHalf(q[i], at)
  {
    SplitChain(q, i, at);
  }

  /** The marking loop of `sack`, from record `i`, for the block `l .. r`. */
  function SackFrom(q: seq<Rec>, i: nat, l: int, r: int, cap: nat): SackOut
    requires Chain(q) && i <= |q|
    decreases Remaining(q, i), if i < |q| && r < q[i].end then 1 else 0
  {
    if i == |q| || r <= q[i].start then SackOut(q, 0, [])
    else
      RemainingDrops(q, i, i + 1);
      var s := q[i];
      if s.flags.sacked then
        var j := NextUnsacked(q, i + 1);
        RemainingDrops(q, i, j);
        SackFrom(q, j, l, r, cap)
      else if r < s.end then
        if |q| >= cap then SackOut(q, 0, [])
        else
          SplitChain(q, i, r);
          SplitRemaining(q, i, r);
          SackFrom(SplitAt(q, i, r), i, l, r, cap)
      else if l <= s.start then
        UpdateChain(q, i, SackRec(s));
        RemainingDrops(q[i := SackRec(s)], i, i + 1);
        var o := SackFrom(q[i := SackRec(s)], i + 1, l, r, cap);
        SackOut(o.recs, o.newly + s.Len(), [s] + o.hits)
      else SackFrom(q, i + 1, l, r, cap)
  }

  /** The block clipped to the queue's span. */
  function Sack(q: seq<Rec>, left: int, right: int, cap: nat): SackOut
    requires Chain(q)
  {
    if right <= left || q == [] then SackOut(q, 0, [])
    else
      var l, r := ClipLeft(q, left), ClipRight(q, right);
      if r <= l then SackOut(q, 0, []) else SackWithin(q, l, r, cap)
  }

  function ClipLeft(q: seq<Rec>, x: int): int
    requires q != []
  {
    if x < First(q) then First(q) else x
  }

  function ClipRight(q: seq<Rec>, x: int): int
    requires q != []
  {
    if Last(q) < x then Last(q) else x
  }

  /** A block within the span: cut at its left edge if there is room, then mark. */
  function SackWithin(q: seq<Rec>, l: int, r: int, cap: nat): SackOut
    requires Chain(q) && q != [] && First(q) <= l < r <= Last(q)
  {
    var i := IndexOf(q, l);
    if CutsLeft(q, i, l) && |q| < cap then
      SplitChain(q, i, l);
      SackFrom(SplitAt(q, i, l), i + 1, l, r, cap)
    else SackFrom(q, i, l, r, cap)
  }

  predicate CutsLeft(q: seq<Rec>, i: nat, l: int)
    requires i < |q|
  {
    q[i].start < l && !q[i].flags.sacked
  }

  // ---- The loop keeps the queue's shape ------------------------------------

  lemma {:induction false} SackFromChain(q: seq<Rec>, i: nat, l: int, r: int, cap: nat)
    requires Chain(q) && i <= |q|
    ensures var o := SackFrom(q, i, l, r, cap);
            && Chain(o.recs)
            && |q| <= |o.recs| && (|o.recs| <= cap || |o.recs| == |q|)
            && (q != [] ==> First(o.recs) == First(q) && Last(o.recs) == Last(q))
    decreases Remaining(q, i), if i < |q| && r < q[i].end then 1 else 0
  {
    if i == |q| || r <= q[i].start {
    } else {
      RemainingDrops(q, i, i + 1);
      var s := q[i];
      if s.flags.sacked {
        var j := NextUnsacked(q, i + 1);
        RemainingDrops(q, i, j);
        SackFromChain(q, j, l, r, cap);
      } else if r < s.end {
        if |q| < cap {
          SplitChain(q, i, r);
          SplitRemaining(q, i, r);
          SackFromChain(SplitAt(q, i, r), i, l, r, cap);
        }
      } else if l <= s.start {
        UpdateChain(q, i, SackRec(s));
        RemainingDrops(q[i := SackRec(s)], i, i + 1);
        SackFromChain(q[i := SackRec(s)], i + 1, l, r, cap);
      } else {
        SackFromChain(q, i + 1, l, r, cap);
      }
    }
  }

  // ---- What the loop does to each byte -------------------------------------

  /** `p` lies in the part of a partial retransmission that was not resent. */
  ghost predicate UnsentTail(q: seq<Rec>, p: int) {
    exists k :: 0 <= k < |q| && TailByte(q[k], p)
  }

  predicate TailByte(s: Rec, p: int) {
    s.flags.partial && s.start + s.sent <= p < s.end
  }

  /** The effect of marking on byte `p`, for a block that may reach `l .. r`. */
  ghost predicate SackEffect(q: seq<Rec>, o: seq<Rec>, l: int, r: int, p: int) {
    && (Marked(Sacked, q, p) ==> Marked(Sacked, o, p))
    && (Marked(Sacked, o, p) ==> Marked(Sacked, q, p) || l <= p < r)
    && (Marked(Resent, o, p) <==> Marked(Resent, q, p) && !Marked(Sacked, o, p))
    && (Marked(Lost, o, p) ==> Marked(Lost, q, p) || UnsentTail(q, p))
    && (Marked(Lost, q, p) ==> Marked(Lost, o, p) || Marked(Sacked, o, p))
    && (UnsentTail(o, p) ==> UnsentTail(q, p))
  }

  lemma TailsAppend(a: seq<Rec>, b: seq<Rec>, p: int)
    ensures UnsentTail(a + b, p) <==> UnsentTail(a, p) || UnsentTail(b, p)
  {
    var c := a + b;
    if UnsentTail(a, p) {
      var i :| 0 <= i < |a| && TailByte(a[i], p);
      assert c[i] == a[i];
    }
    if UnsentTail(b, p) {
      var i :| 0 <= i < |b| && TailByte(b[i], p);
      assert c[|a| + i] == b[i];
    }
  }

  lemma PatchTails(q: seq<Rec>, i: nat, mid: seq<Rec>, p: int)
    requires i < |q|
    requires UnsentTail(mid, p) ==> TailByte(q[i], p)
    ensures UnsentTail(Patch(q, i, mid), p) ==> UnsentTail(q, p)
  {
    TailsAppend(q[..i], mid, p);
    TailsAppend(q[..i] + mid, q[i + 1..], p);
    TailsAppend(q[..i], [q[i]], p);
    TailsAppend(q[..i] + [q[i]], q[i + 1..], p);
    assert q == q[..i] + [q[i]] + q[i + 1..];
    assert TailByte(q[i], p) ==> TailByte([q[i]][0], p);
  }

  /** A byte is never SACKED and at the same time lost or resent. */
  lemma Exclusive(q: seq<Rec>, p: int)
    requires Chain(q) && Marked(Sacked, q, p)
    ensures !Marked(Lost, q, p) && !Marked(Resent, q, p)
  {
    AllOrdered(q);
    var i :| 0 <= i < |q| && Covers(Sacked, q[i], p);
    forall m: Mark, k | 0 <= k < |q| && Covers(m, q[k], p)
      ensures k == i
    {
      WidthBound(m, q[k]);
      WidthBound(Sacked, q[i]);
    }
  }

  lemma SplitEffect(q: seq<Rec>, i: nat, at: int, l: int, r: int, p: int)
    requires Chain(q) && i < |q| && Inside(q[i], at)
    ensures SackEffect(q, SplitAt(q, i, at), l, r, p)
  {
    SplitMarks(Sacked, q, i, at, p);
    SplitMarks(Resent, q, i, at, p);
    SplitMarks(Lost, q, i, at, p);
    if Marked(Sacked, q, p) {
      Exclusive(q, p);
    }
    var mid := [LowerHalf(q[i], at), UpperHalf(q[i], at)];
    assert UnsentTail(mid, p) ==> TailByte(mid[0], p) || TailByte(mid[1], p);
    PatchTails(q, i, mid, p);
  }

  lemma MarkEffect(q: seq<Rec>, i: nat, l: int, r: int, p: int)
    requires Chain(q) && i < |q| && !q[i].flags.sacked && l <= q[i].start && q[i].end <= r
    ensures SackEffect(q, q[i := SackRec(q[i])], l, r, p)
  {
    var t := SackRec(q[i]);
    UpdateMarks(Sacked, q, i, t, p);
    UpdateMarks(Resent, q, i, t, p);
    UpdateMarks(Lost, q, i, t, p);
    if Marked(Sacked, q, p) {
      Exclusive(q, p);
      PatchInsideSacked(q, i, p);
    }
    UpdateIsPatch(q, i, t);
    var mid := [t];
    assert !UnsentTail(mid, p);
    PatchTails(q, i, mid, p);
  }

  lemma PatchInsideSacked(q: seq<Rec>, i: nat, p: int)
    requires Chain(q) && i < |q| && !q[i].flags.sacked
    ensures Marked(Sacked, q, p) ==> !(q[i].start <= p < q[i].end)
  {
    if q[i].start <= p < q[i].end {
      PatchInside(Sacked, q, i, [], p);
    }
  }

  lemma EffectTrans(a: seq<Rec>, b: seq<Rec>, c: seq<Rec>, l: int, r: int, p: int)
    requires SackEffect(a, b, l, r, p) && SackEffect(b, c, l, r, p)
    ensures SackEffect(a, c, l, r, p)
  {
  }

  lemma {:induction false} SackFromMarks(q: seq<Rec>, i: nat, l: int, r: int, cap: nat, p: int)
    requires Chain(q) && i <= |q|
    ensures SackEffect(q, SackFrom(q, i, l, r, cap).recs, l, r, p)
    decreases Remaining(q, i), if i < |q| && r < q[i].end then 1 else 0
  {
    if i == |q| || r <= q[i].start {
      SelfEffect(q, l, r, p);
    } else {
      RemainingDrops(q, i, i + 1);
      var s := q[i];
      if s.flags.sacked {
        var j := NextUnsacked(q, i + 1);
        RemainingDrops(q, i, j);
        SackFromMarks(q, j, l, r, cap, p);
      } else if r < s.end {
        if |q| < cap {
          SplitChain(q, i, r);
          SplitRemaining(q, i, r);
          SackFromMarks(SplitAt(q, i, r), i, l, r, cap, p);
          SplitEffect(q, i, r, l, r, p);
          EffectTrans(q, SplitAt(q, i, r), SackFrom(q, i, l, r, cap).recs, l, r, p);
        } else {
          SelfEffect(q, l, r, p);
        }
      } else if l <= s.start {
        UpdateChain(q, i, SackRec(s));
        RemainingDrops(q[i := SackRec(s)], i, i + 1);
        SackFromMarks(q[i := SackRec(s)], i + 1, l, r, cap, p);
        MarkEffect(q, i, l, r, p);
        EffectTrans(q, q[i := SackRec(s)], SackFrom(q, i, l, r, cap).recs, l, r, p);
      } else {
        SackFromMarks(q, i + 1, l, r, cap, p);
      }
    }
  }

  lemma SelfEffect(q: seq<Rec>, l: int, r: int, p: int)
    requires Chain(q)
    ensures SackEffect(q, q, l, r, p)
  {
    if Marked(Sacked, q, p) {
      Exclusive(q, p);
    }
  }

  lemma {:induction false} SackFromNewly(q: seq<Rec>, i: nat, l: int, r: int, cap: nat)
    requires Chain(q) && i <= |q|
    ensures var o := SackFrom(q, i, l, r, cap);
            o.newly == Total(Sacked, o.recs) - Total(Sacked, q) >= 0
    decreases Remaining(q, i), if i < |q| && r < q[i].end then 1 else 0
  {
    if i == |q| || r <= q[i].start {
    } else {
      RemainingDrops(q, i, i + 1);
      var s := q[i];
      if s.flags.sacked {
        var j := NextUnsacked(q, i + 1);
        RemainingDrops(q, i, j);
        SackFromNewly(q, j, l, r, cap);
      } else if r < s.end {
        if |q| < cap {
          SplitChain(q, i, r);
          SplitRemaining(q, i, r);
          SackFromNewly(SplitAt(q, i, r), i, l, r, cap);
          SplitTotal(q, i, r);
        }
      } else if l <= s.start {
        UpdateChain(q, i, SackRec(s));
        RemainingDrops(q[i := SackRec(s)], i, i + 1);
        SackFromNewly(q[i := SackRec(s)], i + 1, l, r, cap);
        UpdateTotal(Sacked, q, i, SackRec(s));
      } else {
        SackFromNewly(q, i + 1, l, r, cap);
      }
    }
  }

  lemma SplitTotal(q: seq<Rec>, i: nat, at: int)
    requires Chain(q) && i < |q| && Inside(q[i], at)
    ensures Total(Sacked, SplitAt(q, i, at)) == Total(Sacked, q)
  {
    PatchTotal(Sacked, q, i, [LowerHalf(q[i], at), UpperHalf(q[i], at)]);
    PairTotal(Sacked, LowerHalf(q[i], at), UpperHalf(q[i], at));
  }

  // ---- When the block is marked completely ---------------------------------

  /** A split at `x` would be needed to mark up to (or from) there. */
  ghost predicate NeedsCut(q: seq<Rec>, x: int) {
    exists k :: 0 <= k < |q| && Inside(q[k], x) && !q[k].flags.sacked
  }

  lemma {:induction false} SackFromExact(q: seq<Rec>, i: nat, l: int, r: int, cap: nat, p: int)
    requires Chain(q) && i < |q| && q[i].start <= p && l <= p < r <= Last(q)
    requires l < q[i].end && (l <= q[i].start || q[i].flags.sacked)
    requires |q| < cap || !NeedsCut(q, r)
    ensures Marked(Sacked, SackFrom(q, i, l, r, cap).recs, p)
    decreases Remaining(q, i), if r < q[i].end then 1 else 0
  {
    RemainingDrops(q, i, i + 1);
    AllOrdered(q);
    var s := q[i];
    if s.flags.sacked {
      var j := NextUnsacked(q, i + 1);
      RemainingDrops(q, i, j);
      if j < |q| && q[j].start <= p {
        SackFromExact(q, j, l, r, cap, p);
      } else {
        SackFromMarks(q, j, l, r, cap, p);
        SackedRun(q, i, j, p);
      }
    } else if r < s.end {
      assert Inside(q[i], r);
      SplitChain(q, i, r);
      SplitRemaining(q, i, r);
      CutDone(q, i, r);
      SackFromExact(SplitAt(q, i, r), i, l, r, cap, p);
    } else {
      var q' := q[i := SackRec(s)];
      UpdateChain(q, i, SackRec(s));
      RemainingDrops(q', i, i + 1);
      if p < s.end {
        SackFromMarks(q', i + 1, l, r, cap, p);
        assert Covers(Sacked, q'[i], p);
      } else {
        MarkKeepsCuts(q, i, r);
        SackFromExact(q', i + 1, l, r, cap, p);
      }
    }
  }

  lemma SackedRun(q: seq<Rec>, i: nat, j: nat, p: int)
    requires Chain(q) && i < j <= |q|
    requires forall k :: i <= k < j ==> q[k].flags.sacked
    requires q[i].start <= p < (if j < |q| then q[j].start else Last(q))
    ensures Marked(Sacked, q, p)
  {
    AllOrdered(q);
    var k := IndexOf(q, p);
    assert Covers(Sacked, q[k], p);
  }

  lemma CutDone(q: seq<Rec>, i: nat, r: int)
    requires Chain(q) && i < |q| && Inside(q[i], r)
    ensures !NeedsCut(SplitAt(q, i, r), r)
  {
    SplitChain(q, i, r);
    AllOrdered(SplitAt(q, i, r));
    SplitRemaining(q, i, r);
  }

  lemma MarkKeepsCuts(q: seq<Rec>, i: nat, r: int)
    requires Chain(q) && i < |q|
    ensures NeedsCut(q[i := SackRec(q[i])], r) ==> NeedsCut(q, r)
  {
    var q' := q[i := SackRec(q[i])];
    if NeedsCut(q', r) {
      var k :| 0 <= k < |q'| && Inside(q'[k], r) && !q'[k].flags.sacked;
      assert q[k] == q'[k];
    }
  }

  /** With no slot to split into, a record the block does not cover whole is left as it was. */
  lemma {:induction false} SackFromFull(q: seq<Rec>, i: nat, l: int, r: int, cap: nat, k: nat)
    requires Chain(q) && i <= |q| && cap <= |q| && k < |q|
    requires q[k].start < l || r < q[k].end
    ensures var o := SackFrom(q, i, l, r, cap).recs;
            |o| == |q| && o[k] == q[k]
    decreases Remaining(q, i), if i < |q| && r < q[i].end then 1 else 0
  {
    if i == |q| || r <= q[i].start {
    } else {
      RemainingDrops(q, i, i + 1);
      var s := q[i];
      if s.flags.sacked {
        var j := NextUnsacked(q, i + 1);
        RemainingDrops(q, i, j);
        SackFromFull(q, j, l, r, cap, k);
      } else if r < s.end {
      } else if l <= s.start {
        UpdateChain(q, i, SackRec(s));
        RemainingDrops(q[i := SackRec(s)], i, i + 1);
        SackFromFull(q[i := SackRec(s)], i + 1, l, r, cap, k);
      } else {
        SackFromFull(q, i + 1, l, r, cap, k);
      }
    }
  }

  // ---- The whole operation -------------------------------------------------

  /** Slots that marking `left .. right` completely would take. */
  ghost function CutsNeeded(q: seq<Rec>, left: int, right: int): nat {
    (if NeedsCut(q, left) then 1 else 0) + (if NeedsCut(q, right) then 1 else 0)
  }

  /** A block keeps the chain and its span, and never outgrows the queue. */
  lemma SackKeepsChain(q: seq<Rec>, left: int, right: int, cap: nat)
    requires Chain(q) && |q| <= cap
    ensures var o := Sack(q, left, right, cap);
            && Chain(o.recs) && |q| <= |o.recs| <= cap
            && (q != [] ==> First(o.recs) == First(q) && Last(o.recs) == Last(q))
  {
    if left < right && q != [] && ClipLeft(q, left) < ClipRight(q, right) {
      var l, r := ClipLeft(q, left), ClipRight(q, right);
      var i := IndexOf(q, l);
      if CutsLeft(q, i, l) && |q| < cap {
        SplitChain(q, i, l);
        SackFromChain(SplitAt(q, i, l), i + 1, l, r, cap);
      } else {
        SackFromChain(q, i, l, r, cap);
      }
    }
  }

  /** Byte by byte: nothing outside the block is newly SACKED, nothing SACKED is
      forgotten, resent bytes stay resent unless SACKED, and a byte becomes lost
      only as the unsent tail of a partial retransmission. */
  lemma SackIsBounded(q: seq<Rec>, left: int, right: int, cap: nat, p: int)
    requires Chain(q)
    ensures SackEffect(q, Sack(q, left, right, cap).recs, left, right, p)
  {
    SelfEffect(q, left, right, p);
    if left < right && q != [] && ClipLeft(q, left) < ClipRight(q, right) {
      var l, r := ClipLeft(q, left), ClipRight(q, right);
      var i := IndexOf(q, l);
      if CutsLeft(q, i, l) && |q| < cap {
        SplitChain(q, i, l);
        SackFromMarks(SplitAt(q, i, l), i + 1, l, r, cap, p);
        SplitEffect(q, i, l, l, r, p);
        EffectTrans(q, SplitAt(q, i, l), Sack(q, left, right, cap).recs, l, r, p);
      } else {
        SackFromMarks(q, i, l, r, cap, p);
      }
    }
  }

  lemma SackNewly(q: seq<Rec>, left: int, right: int, cap: nat)
    requires Chain(q)
    ensures var o := Sack(q, left, right, cap);
            o.newly == Total(Sacked, o.recs) - Total(Sacked, q)
  {
    if left < right && q != [] && ClipLeft(q, left) < ClipRight(q, right) {
      var l, r := ClipLeft(q, left), ClipRight(q, right);
      var i := IndexOf(q, l);
      if CutsLeft(q, i, l) && |q| < cap {
        SplitChain(q, i, l);
        SplitTotal(q, i, l);
        SackFromNewly(SplitAt(q, i, l), i + 1, l, r, cap);
      } else {
        SackFromNewly(q, i, l, r, cap);
      }
    }
  }

  /** The returned count is the growth of the SACKED byte set. */
  lemma SackCountsGrowth(q: seq<Rec>, left: int, right: int, cap: nat)
    requires Chain(q) && |q| <= cap
    ensures var o := Sack(q, left, right, cap);
            && Bytes(Sacked, q) <= Bytes(Sacked, o.recs)
            && o.newly == |Bytes(Sacked, o.recs) - Bytes(Sacked, q)|
  {
    var o := Sack(q, left, right, cap);
    SackNewly(q, left, right, cap);
    SackKeepsChain(q, left, right, cap);
    TotalIsSize(Sacked, q);
    TotalIsSize(Sacked, o.recs);
    forall p | p in Bytes(Sacked, q) ensures p in Bytes(Sacked, o.recs) {
      BytesAreMarked(Sacked, q, p);
      BytesAreMarked(Sacked, o.recs, p);
      SackIsBounded(q, left, right, cap, p);
    }
  }

  /** Every byte of the block within the queue ends up SACKED. */
  ghost predicate Complete(q: seq<Rec>, o: seq<Rec>, left: int, right: int)
    requires q != []
  {
    forall p :: left <= p < right && First(q) <= p < Last(q) ==> Marked(Sacked, o, p)
  }

  /** The block is marked completely exactly when there is a free slot for each
      edge that falls inside a record not yet SACKED. */
  lemma SackIsExact(q: seq<Rec>, left: int, right: int, cap: nat)
    requires Chain(q) && q != [] && |q| <= cap
    requires left < right && left < Last(q) && First(q) < right
    ensures Complete(q, Sack(q, left, right, cap).recs, left, right) <==>
            |q| + CutsNeeded(q, left, right) <= cap
  {
    var l, r := ClipLeft(q, left), ClipRight(q, right);
    NonEmptySpan(q);
    ClippedCuts(q, left, l);
    ClippedCuts(q, right, r);
    if |q| + CutsNeeded(q, left, right) <= cap {
      forall p | left <= p < right && First(q) <= p < Last(q)
        ensures Marked(Sacked, Sack(q, left, right, cap).recs, p)
      {
        RoomMarks(q, l, r, cap, p);
      }
    } else {
      var p := NoRoomMisses(q, l, r, cap);
    }
  }

  lemma NonEmptySpan(q: seq<Rec>)
    requires Chain(q) && q != []
    ensures First(q) < Last(q)
  {
    RemainingDrops(q, 0, |q|);
  }

  lemma ClippedCuts(q: seq<Rec>, x: int, y: int)
    requires Chain(q) && q != []
    requires x == y || (x <= First(q) && y == First(q)) || (Last(q) <= x && y == Last(q))
    ensures NeedsCut(q, x) == NeedsCut(q, y)
  {
    AllOrdered(q);
  }

  lemma LeftCut(q: seq<Rec>, l: int)
    requires Chain(q) && q != [] && First(q) <= l < Last(q)
    ensures CutsLeft(q, IndexOf(q, l), l) <==> NeedsCut(q, l)
  {
    AllOrdered(q);
    var i := IndexOf(q, l);
    if CutsLeft(q, i, l) {
      assert Inside(q[i], l);
    }
  }

  /** A split elsewhere leaves the need for a cut as it was. */
  lemma SplitKeepsCut(q: seq<Rec>, i: nat, at: int, x: int)
    requires Chain(q) && i < |q| && Inside(q[i], at) && x != at
    ensures NeedsCut(SplitAt(q, i, at), x) <==> NeedsCut(q, x)
  {
    hide SplitAt, LowerHalf, UpperHalf, Chain;
    var q' := SplitAt(q, i, at);
    SplitChain(q, i, at);
    if NeedsCut(q, x) {
      var k :| 0 <= k < |q| && Inside(q[k], x) && !q[k].flags.sacked;
      CutAbove(q, i, at, x, k);
    }
    if NeedsCut(q', x) {
      var k :| 0 <= k < |q'| && Inside(q'[k], x) && !q'[k].flags.sacked;
      CutBelow(q, i, at, x, k);
    }
  }

  lemma CutAbove(q: seq<Rec>, i: nat, at: int, x: int, k: nat)
    requires Chain(q) && i < |q| && Inside(q[i], at) && x != at && k < |q|
    requires Inside(q[k], x) && !q[k].flags.sacked
    ensures NeedsCut(SplitAt(q, i, at), x)
  {
    hide Chain;
    var q' := SplitAt(q, i, at);
    if k < i {
      assert q'[k] == q[k];
    } else if k == i {
      assert q'[i] == LowerHalf(q[i], at) && q'[i + 1] == UpperHalf(q[i], at);
    } else {
      assert q'[k + 1] == q[k];
    }
  }

  lemma CutBelow(q: seq<Rec>, i: nat, at: int, x: int, k: nat)
    requires Chain(q) && i < |q| && Inside(q[i], at) && x != at && k <= |q|
    requires var s := SplitAt(q, i, at)[k]; Inside(s, x) && !s.flags.sacked
    ensures NeedsCut(q, x)
  {
    hide Chain;
    var q' := SplitAt(q, i, at);
    if k < i {
      assert q'[k] == q[k];
    } else if k == i {
      assert q'[i] == LowerHalf(q[i], at) && Inside(q[i], x);
    } else if k == i + 1 {
      assert q'[i + 1] == UpperHalf(q[i], at) && Inside(q[i], x);
    } else {
      assert q'[k] == q[k - 1];
    }
  }

  lemma RoomMarks(q: seq<Rec>, l: int, r: int, cap: nat, p: int)
    requires Chain(q) && q != [] && First(q) <= l <= p < r <= Last(q)
    requires |q| + CutsNeeded(q, l, r) <= cap
    ensures Marked(Sacked, SackWithin(q, l, r, cap).recs, p)
  {
    var i := IndexOf(q, l);
    LeftCut(q, l);
    if CutsLeft(q, i, l) {
      var q' := SplitAt(q, i, l);
      SplitChain(q, i, l);
      SplitKeepsCut(q, i, l, r);
      assert q'[i + 1] == UpperHalf(q[i], l);
      SackFromExact(q', i + 1, l, r, cap, p);
    } else {
      SackFromExact(q, i, l, r, cap, p);
    }
  }

  /** A byte of the block that is left unmarked for want of a slot. */
  lemma NoRoomMisses(q: seq<Rec>, l: int, r: int, cap: nat) returns (p: int)
    requires Chain(q) && q != [] && |q| <= cap && First(q) <= l < r <= Last(q)
    requires |q| + CutsNeeded(q, l, r) > cap
    ensures l <= p < r
    ensures !Marked(Sacked, SackWithin(q, l, r, cap).recs, p)
  {
    var i := IndexOf(q, l);
    LeftCut(q, l);
    if CutsLeft(q, i, l) && |q| < cap {
      SplitChain(q, i, l);
      SplitKeepsCut(q, i, l, r);
      p := FullMisses(SplitAt(q, i, l), i + 1, l, r, cap);
    } else {
      p := FullMisses(q, i, l, r, cap);
    }
  }

  lemma FullMisses(q: seq<Rec>, i: nat, l: int, r: int, cap: nat) returns (p: int)
    requires Chain(q) && i <= |q| && cap <= |q| && q != [] && First(q) <= l < r <= Last(q)
    requires NeedsCut(q, l) || NeedsCut(q, r)
    ensures l <= p < r
    ensures !Marked(Sacked, SackFrom(q, i, l, r, cap).recs, p)
  {
    var k: nat;
    if NeedsCut(q, l) {
      k :| 0 <= k < |q| && Inside(q[k], l) && !q[k].flags.sacked;
      p := l;
    } else {
      k :| 0 <= k < |q| && Inside(q[k], r) && !q[k].flags.sacked;
      p := r - 1;
    }
    SackFromFull(q, i, l, r, cap, k);
    SackFromChain(q, i, l, r, cap);
    PatchInside(Sacked, SackFrom(q, i, l, r, cap).recs, k, [], p);
  }
}
