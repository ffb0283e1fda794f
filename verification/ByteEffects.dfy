/** What each queue operation does to each byte, and which records the two kinds of
    acknowledgement report. */
module ByteEffects {
  import opened Scoreboard
  import opened Sacking
  import opened QueueRuns
  import opened Tails
  import opened Sendings

  lemma MarkedAt(m: Mark, q: seq<Rec>, k: nat, p: int)
    requires Chain(q) && k < |q| && Holds(q[k], p)
    ensures Marked(m, q, p) <==> Covers(m, q[k], p)
  {
    PatchInside(m, q, k, [], p);
  }

  /** Some record holds `p`. */
  ghost predicate Queued(q: seq<Rec>, p: int) {
    exists k :: 0 <= k < |q| && Holds(q[k], p)
  }

  lemma MarkedIsQueued(m: Mark, q: seq<Rec>, p: int)
    requires Chain(q) && Marked(m, q, p)
    ensures Queued(q, p)
  {
    var k :| 0 <= k < |q| && Covers(m, q[k], p);
    WidthBound(m, q[k]);
    assert Holds(q[k], p);
  }

  // ---- Operations that change marks ----------------------------------------

  /** Marking lost reaches `p`. */
  ghost predicate Hit(q: seq<Rec>, op: Op, p: int) {
    && !Marked(Sacked, q, p)
    && ((op.MarkAllLost? && Queued(q, p)) || (op.MarkLost? && op.i < |q| && Holds(q[op.i], p)))
  }

  /** A retransmission is of the record that holds `p`. */
  predicate Resends(q: seq<Rec>, op: Op, p: int) {
    op.Retransmit? && op.i < |q| && Holds(q[op.i], p)
  }

  /** `p` is among the bytes the retransmission puts on the wire. */
  predicate Reaches(q: seq<Rec>, op: Op, p: int)
    requires Resends(q, op, p)
  {
    p < if op.sent > 0 then q[op.i].start + op.sent else q[op.i].end
  }

  /** Loss marks take bytes back from the resent ones, and are taken back where nothing
      was resent; a retransmission marks just what it sends; clearing forgets what was
      SACKED; and nothing else changes. */
  ghost predicate ByteEffect(q: seq<Rec>, q': seq<Rec>, op: Op, p: int) {
    && (Marked(Sacked, q', p) <==> Marked(Sacked, q, p) && !op.ClearSacked?)
    && (Marked(Lost, q', p) <==>
        (Marked(Lost, q, p) && !(op.UnmarkLost? && Resendable(q, p))) || Hit(q, op, p))
    && (Marked(Resent, q', p) <==>
        if Resends(q, op, p) then Reaches(q, op, p) else Marked(Resent, q, p) && !Hit(q, op, p))
  }

  /** Operations that neither split nor acknowledge. */
  predicate Plain(op: Op) {
    !op.Split? && !op.Ack? && !op.SackBlock?
  }

  lemma PlainEffect(b: Board, op: Op, cap: nat, p: int)
    requires Inv(b, cap) && Allowed(b, op) && Plain(op)
    ensures ByteEffect(b.recs, Next(b, op, cap).recs, op, p)
  {
    hide Chain, SentInOrder, Marked, Hit, ByteEffect, Resendable;
    var q, q' := b.recs, Next(b, op, cap).recs;
    if op.Push? {
      PushEffect(b, op, cap, p);
    } else if k :| 0 <= k < |q| && Holds(q[k], p) {
      InPlace(b, op, cap, k);
      HeldEffect(q, q', op, p, k);
    } else {
      forall k | 0 <= k < |q'| ensures !Holds(q'[k], p) {
        InPlace(b, op, cap, k);
      }
      NoneEffect(q, q', op, p);
    }
  }

  /** What such an operation makes of one record. */
  function Rewritten(s: Rec, op: Op, here: bool, xmit: nat): Rec {
    match op
    case MarkLost(i) => if here then LostRec(s) else s
    case Retransmit(i, now, sent) => if here then ResentRec(s, now, sent, xmit) else s
    case MarkAllLost => LostRec(s)
    case UnmarkLost => UnmarkRec(s)
    case ClearSacked => UnsackRec(s)
    case _ => s
  }

  predicate Here(op: Op, k: nat) {
    (op.MarkLost? || op.Retransmit?) && op.i == k
  }

  lemma InPlace(b: Board, op: Op, cap: nat, k: nat)
    requires Inv(b, cap) && Allowed(b, op) && Plain(op) && !op.Push?
    ensures |Next(b, op, cap).recs| == |b.recs|
    ensures k < |b.recs| ==>
              && Next(b, op, cap).recs[k] == Rewritten(b.recs[k], op, Here(op, k), b.nextXmit)
              && SameExtent(b.recs[k], Next(b, op, cap).recs[k])
              && RecOk(b.recs[k])
  {
  }

  lemma HeldEffect(q: seq<Rec>, q': seq<Rec>, op: Op, p: int, k: nat)
    requires Chain(q) && Chain(q') && |q'| == |q| && k < |q| && Holds(q[k], p) && Holds(q'[k], p)
    requires Plain(op) && !op.Push?
    requires exists xmit :: q'[k] == Rewritten(q[k], op, Here(op, k), xmit)
    ensures ByteEffect(q, q', op, p)
  {
    hide Chain, Marked;
    forall m: Mark
      ensures Marked(m, q, p) <==> Covers(m, q[k], p)
      ensures Marked(m, q', p) <==> Covers(m, q'[k], p)
    {
      MarkedAt(m, q, k, p);
      MarkedAt(m, q', k, p);
    }
    OnlyRecord(q, k, p);
    OneHolds(q, k, p);
    assert RecOk(q[k]) && RecOk(q'[k]) by { ChainRec(q, k); ChainRec(q', k); }
    assert Queued(q, p);
  }

  lemma ChainRec(q: seq<Rec>, k: nat)
    requires Chain(q) && k < |q|
    ensures RecOk(q[k])
  {
  }

  lemma OneHolds(q: seq<Rec>, k: nat, p: int)
    requires Chain(q) && k < |q| && Holds(q[k], p)
    ensures forall j :: 0 <= j < |q| && Holds(q[j], p) ==> j == k
  {
    AllOrdered(q);
  }

  lemma NoneEffect(q: seq<Rec>, q': seq<Rec>, op: Op, p: int)
    requires Chain(q) && Chain(q') && Plain(op) && !Queued(q, p) && !Queued(q', p)
    ensures ByteEffect(q, q', op, p)
  {
    hide Chain, Marked;
    forall m: Mark ensures !Marked(m, q, p) && !Marked(m, q', p) {
      if Marked(m, q, p) { MarkedIsQueued(m, q, p); }
      if Marked(m, q', p) { MarkedIsQueued(m, q', p); }
    }
    assert !Resendable(q, p);
  }

  lemma PushEffect(b: Board, op: Op, cap: nat, p: int)
    requires Inv(b, cap) && op.Push?
    ensures ByteEffect(b.recs, Next(b, op, cap).recs, op, p)
  {
    var q, q' := b.recs, Next(b, op, cap).recs;
    forall m: Mark ensures Marked(m, q', p) <==> Marked(m, q, p) {
      if q' != q {
        MarkedAppend(m, q, [q'[|q|]], p);
        assert q' == q + [q'[|q|]];
        assert !Marked(m, [q'[|q|]], p);
      }
    }
  }

  // ---- Which records are reported ------------------------------------------

  /** A cumulative ACK reports, in order, exactly the records that begin below it. */
  lemma {:induction false} AckHitsAre(q: seq<Rec>, una: int)
    requires Chain(q)
    ensures |AckHits(q, una)| <= |q| && AckHits(q, una) == q[..|AckHits(q, una)|]
    ensures forall i :: 0 <= i < |q| ==> (i < |AckHits(q, una)| <==> q[i].start < una)
  {
    AllOrdered(q);
    assert forall i :: 0 <= i < |q| ==> RecOk(q[i]);
    if q == [] || una <= q[0].start {
    } else if q[0].end <= una {
      ChainSlice(q, 1, |q|);
      var t := q[1..];
      AckHitsAre(t, una);
      assert forall i :: 0 < i < |q| ==> q[i] == t[i - 1];
    } else {
      assert forall i :: 0 < i < |q| ==> q[0].end <= q[i].start;
    }
  }

  /** The bytes of the records reported. */
  ghost predicate InHits(hits: seq<Rec>, p: int) {
    exists i :: 0 <= i < |hits| && Holds(hits[i], p)
  }

  lemma FirstHit(s: Rec, hits: seq<Rec>, p: int)
    ensures InHits([s] + hits, p) <==> Holds(s, p) || InHits(hits, p)
  {
    var c := [s] + hits;
    if InHits(hits, p) {
      var i :| 0 <= i < |hits| && Holds(hits[i], p);
      assert c[i + 1] == hits[i];
    }
    assert c[0] == s;
    assert forall i :: 0 < i < |c| ==> c[i] == hits[i - 1];
  }

  lemma {:induction false} SackFromReports(q: seq<Rec>, i: nat, l: int, r: int, cap: nat, p: int)
    requires Chain(q) && i <= |q|
    ensures var o := SackFrom(q, i, l, r, cap);
            InHits(o.hits, p) <==> Marked(Sacked, o.recs, p) && !Marked(Sacked, q, p)
    decreases Remaining(q, i), if i < |q| && r < q[i].end then 1 else 0
  {
    hide Chain, Marked, InHits;
    if i == |q| || r <= q[i].start {
      NoHits(p);
    } else {
      RemainingDrops(q, i, i + 1);
      var s := q[i];
      if s.flags.sacked {
        var j := NextUnsacked(q, i + 1);
        RemainingDrops(q, i, j);
        SackFromReports(q, j, l, r, cap, p);
      } else if r < s.end {
        if |q| < cap {
          SplitChain(q, i, r);
          SplitRemaining(q, i, r);
          SackFromReports(SplitAt(q, i, r), i, l, r, cap, p);
          SplitMarks(Sacked, q, i, r, p);
        } else {
          NoHits(p);
        }
      } else if l <= s.start {
        var q1 := q[i := SackRec(s)];
        ChainRec(q, i);
        UpdateChain(q, i, SackRec(s));
        RemainingDrops(q1, i, i + 1);
        SackFromReports(q1, i + 1, l, r, cap, p);
        SackFromMarks(q1, i + 1, l, r, cap, p);
        UpdateMarks(Sacked, q, i, SackRec(s), p);
        FirstHit(s, SackFrom(q1, i + 1, l, r, cap).hits, p);
        if Holds(s, p) {
          MarkedAt(Sacked, q, i, p);
        }
      } else {
        SackFromReports(q, i + 1, l, r, cap, p);
      }
    }
  }

  lemma NoHits(p: int)
    ensures !InHits([], p)
  {
  }

  lemma {:induction false} SackFromHitParts(q: seq<Rec>, i: nat, l: int, r: int, cap: nat)
    requires Chain(q) && i <= |q|
    ensures Parts(SackFrom(q, i, l, r, cap).hits, q)
    decreases Remaining(q, i), if i < |q| && r < q[i].end then 1 else 0
  {
    hide Chain, Parts;
    if i == |q| || r <= q[i].start {
      NoParts(q);
    } else {
      RemainingDrops(q, i, i + 1);
      var s := q[i];
      if s.flags.sacked {
        var j := NextUnsacked(q, i + 1);
        RemainingDrops(q, i, j);
        SackFromHitParts(q, j, l, r, cap);
      } else if r < s.end {
        if |q| < cap {
          SplitChain(q, i, r);
          SplitRemaining(q, i, r);
          SackFromHitParts(SplitAt(q, i, r), i, l, r, cap);
          SplitParts(q, i, r);
          PartsTrans(SackFrom(q, i, l, r, cap).hits, SplitAt(q, i, r), q);
        } else {
          NoParts(q);
        }
      } else if l <= s.start {
        var q1 := q[i := SackRec(s)];
        ChainRec(q, i);
        UpdateChain(q, i, SackRec(s));
        RemainingDrops(q1, i, i + 1);
        SackFromHitParts(q1, i + 1, l, r, cap);
        RewriteParts(q, q1);
        PartsTrans(SackFrom(q1, i + 1, l, r, cap).hits, q1, q);
        OneMorePart(q, i, SackFrom(q1, i + 1, l, r, cap).hits);
      } else {
        SackFromHitParts(q, i + 1, l, r, cap);
      }
    }
  }

  lemma NoParts(q: seq<Rec>)
    ensures Parts([], q)
  {
  }

  lemma OneMorePart(q: seq<Rec>, i: nat, hits: seq<Rec>)
    requires i < |q| && Parts(hits, q)
    ensures Parts([q[i]] + hits, q)
  {
    assert PartOf(q[i], q[i]);
    var c := [q[i]] + hits;
    forall k | 0 <= k < |c| ensures HasWhole(c[k], q) {
      if k > 0 {
        assert c[k] == hits[k - 1];
      }
    }
  }

  /** A block reports exactly the bytes it newly SACKs, as they were sent. */
  lemma SackHitsAre(q: seq<Rec>, left: int, right: int, cap: nat, p: int)
    requires Chain(q)
    ensures var o := Sack(q, left, right, cap);
            && (InHits(o.hits, p) <==> Marked(Sacked, o.recs, p) && !Marked(Sacked, q, p))
            && Parts(o.hits, q)
  {
    hide Chain, Marked, InHits, Parts;
    NoHits(p);
    NoParts(q);
    if left < right && q != [] && ClipLeft(q, left) < ClipRight(q, right) {
      var l, r := ClipLeft(q, left), ClipRight(q, right);
      var i := IndexOf(q, l);
      if CutsLeft(q, i, l) && |q| < cap {
        SplitChain(q, i, l);
        SackFromReports(SplitAt(q, i, l), i + 1, l, r, cap, p);
        SplitMarks(Sacked, q, i, l, p);
        SackFromHitParts(SplitAt(q, i, l), i + 1, l, r, cap);
        SplitParts(q, i, l);
        PartsTrans(Sack(q, left, right, cap).hits, SplitAt(q, i, l), q);
      } else {
        SackFromReports(q, i, l, r, cap, p);
        SackFromHitParts(q, i, l, r, cap);
      }
    }
  }
}
