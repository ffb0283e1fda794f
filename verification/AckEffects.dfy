/** What one acknowledgement tells the sender, and what the sender makes of it. */
module AckEffects {
  import opened Serial
  import opened Scoreboard
  import opened Sacking
  import opened QueueRuns
  import opened Ranges
  import opened Recency
  import opened Protocol
  import R = Reassembly

  // ---- Slots one block takes -----------------------------------------------

  lemma MarkKeepsCut(q: seq<Rec>, i: nat, x: int)
    requires i < |q| && !Inside(q[i], x)
    ensures NeedsCut(q[i := SackRec(q[i])], x) <==> NeedsCut(q, x)
  {
    var q' := q[i := SackRec(q[i])];
    assert forall k :: 0 <= k < |q| && k != i ==> q'[k] == q[k];
    assert !Inside(q'[i], x);
    if NeedsCut(q, x) {
      var k :| 0 <= k < |q| && Inside(q[k], x) && !q[k].flags.sacked;
      assert q'[k] == q[k];
    }
  }

  /** Marking `l .. r` leaves every need for a cut elsewhere as it was. */
  lemma {:induction false} SackFromKeepsCut(q: seq<Rec>, i: nat, l: int, r: int, cap: nat, x: int)
    requires Chain(q) && i <= |q| && l < r && (x < l || r < x)
    ensures NeedsCut(SackFrom(q, i, l, r, cap).recs, x) <==> NeedsCut(q, x)
    decreases Remaining(q, i), if i < |q| && r < q[i].end then 1 else 0
  {
    hide Chain, NeedsCut, SplitAt;
    if i == |q| || r <= q[i].start {
    } else {
      RemainingDrops(q, i, i + 1);
      var s := q[i];
      if s.flags.sacked {
        var j := NextUnsacked(q, i + 1);
        RemainingDrops(q, i, j);
        SackFromKeepsCut(q, j, l, r, cap, x);
      } else if r < s.end {
        if |q| < cap {
          SplitChain(q, i, r);
          SplitRemaining(q, i, r);
          SplitKeepsCut(q, i, r, x);
          SackFromKeepsCut(SplitAt(q, i, r), i, l, r, cap, x);
        }
      } else if l <= s.start {
        Unsacked(q, i);
        UpdateChain(q, i, SackRec(s));
        RemainingDrops(q[i := SackRec(s)], i, i + 1);
        MarkKeepsCut(q, i, x);
        SackFromKeepsCut(q[i := SackRec(s)], i + 1, l, r, cap, x);
      } else {
        SackFromKeepsCut(q, i + 1, l, r, cap, x);
      }
    }
  }

  lemma Unsacked(q: seq<Rec>, i: nat)
    requires Chain(q) && i < |q|
    ensures RecOk(SackRec(q[i])) && SameExtent(q[i], SackRec(q[i]))
  {
    assert RecOk(q[i]);
  }

  /** No record below `i` needs a cut at `x`. */
  predicate Clear(q: seq<Rec>, i: nat, x: int)
    requires i <= |q|
  {
    forall k :: 0 <= k < i ==> !Inside(q[k], x) || q[k].flags.sacked
  }

  lemma NoneAbove(q: seq<Rec>, i: nat, x: int)
    requires Chain(q) && i <= |q| && Clear(q, i, x) && (i < |q| ==> x <= q[i].start)
    ensures !NeedsCut(q, x)
  {
    AllOrdered(q);
  }

  lemma CutHere(q: seq<Rec>, i: nat, x: int)
    requires Chain(q) && i < |q| && Inside(q[i], x) && !q[i].flags.sacked
    ensures var q' := SplitAt(q, i, x);
            && NeedsCut(q, x) && !NeedsCut(q', x) && Clear(q', i, x)
            && Chain(q') && |q'| == |q| + 1 && q'[i].end == x
            && Remaining(q', i) == Remaining(q, i)
  {
    SplitChain(q, i, x);
    SplitRemaining(q, i, x);
    CutDone(q, i, x);
  }

  /** With a slot for it, marking takes one exactly if the right edge needs a cut. */
  lemma {:induction false} SackFromGrowth(q: seq<Rec>, i: nat, l: int, r: int, cap: nat)
    requires Chain(q) && i <= |q| && (|q| < cap || !NeedsCut(q, r)) && Clear(q, i, r)
    ensures |SackFrom(q, i, l, r, cap).recs| == |q| + if NeedsCut(q, r) then 1 else 0
    decreases Remaining(q, i), if i < |q| && r < q[i].end then 1 else 0
  {
    hide SplitAt, Chain, NeedsCut;
    if i == |q| || r <= q[i].start {
      NoneAbove(q, i, r);
    } else {
      RemainingDrops(q, i, i + 1);
      var s := q[i];
      if s.flags.sacked {
        var j := NextUnsacked(q, i + 1);
        RemainingDrops(q, i, j);
        SackFromGrowth(q, j, l, r, cap);
      } else if r < s.end {
        CutHere(q, i, r);
        SackFromGrowth(SplitAt(q, i, r), i, l, r, cap);
      } else if l <= s.start {
        Unsacked(q, i);
        UpdateChain(q, i, SackRec(s));
        RemainingDrops(q[i := SackRec(s)], i, i + 1);
        MarkKeepsCut(q, i, r);
        SackFromGrowth(q[i := SackRec(s)], i + 1, l, r, cap);
      } else {
        SackFromGrowth(q, i + 1, l, r, cap);
      }
    }
  }

  lemma SackKeepsCut(q: seq<Rec>, left: int, right: int, cap: nat, x: int)
    requires Chain(q) && q != [] && First(q) <= left < right <= Last(q) && (x < left || right < x)
    ensures NeedsCut(Sack(q, left, right, cap).recs, x) <==> NeedsCut(q, x)
  {
    hide Chain, NeedsCut, SplitAt, SackFrom;
    var i := IndexOf(q, left);
    if CutsLeft(q, i, left) && |q| < cap {
      SplitChain(q, i, left);
      SplitKeepsCut(q, i, left, x);
      SackFromKeepsCut(SplitAt(q, i, left), i + 1, left, right, cap, x);
    } else {
      SackFromKeepsCut(q, i, left, right, cap, x);
    }
  }

  /** With room for them, a block takes exactly the slots its edges need. */
  lemma SackGrowth(q: seq<Rec>, left: int, right: int, cap: nat)
    requires Chain(q) && q != [] && First(q) <= left < right <= Last(q)
    requires |q| + CutsNeeded(q, left, right) <= cap
    ensures |Sack(q, left, right, cap).recs| == |q| + CutsNeeded(q, left, right)
  {
    hide SackFrom, NeedsCut, SplitAt, Chain, Clear;
    var i := IndexOf(q, left);
    LeftCut(q, left);
    ClearBelow(q, i, left, right);
    if CutsLeft(q, i, left) {
      SplitChain(q, i, left);
      SplitKeepsCut(q, i, left, right);
      ClearBelowCut(q, i, left, right);
      SackFromGrowth(SplitAt(q, i, left), i + 1, left, right, cap);
    } else {
      SackFromGrowth(q, i, left, right, cap);
    }
  }

  lemma ClearBelow(q: seq<Rec>, i: nat, l: int, r: int)
    requires Chain(q) && i < |q| && q[i].start <= l < r
    ensures Clear(q, i, r)
  {
    AllOrdered(q);
  }

  lemma ClearBelowCut(q: seq<Rec>, i: nat, l: int, r: int)
    requires Chain(q) && i < |q| && Inside(q[i], l) && l < r
    ensures i + 1 <= |SplitAt(q, i, l)| && Clear(SplitAt(q, i, l), i + 1, r)
  {
    AllOrdered(q);
    forall k | 0 <= k <= i ensures SplitAt(q, i, l)[k].end <= l {
      SplitIndex(q, i, l, k);
    }
  }

  // ---- All the blocks of an acknowledgement --------------------------------

  /** Block edges that fall inside a record not yet SACKED. */
  ghost function EdgesToCut(q: seq<Rec>, blocks: seq<(int, int)>): (n: nat)
    ensures n <= 2 * |blocks|
  {
    if blocks == [] then 0
    else CutsNeeded(q, blocks[0].0, blocks[0].1) + EdgesToCut(q, blocks[1..])
  }

  predicate InBlock(x: (int, int), p: int) {
    x.0 <= p < x.1
  }

  ghost predicate Covered(blocks: seq<(int, int)>, p: int) {
    exists i :: 0 <= i < |blocks| && InBlock(blocks[i], p)
  }

  /** Every block lies within the queue's span. */
  predicate Within(q: seq<Rec>, blocks: seq<(int, int)>) {
    blocks != [] ==> q != [] && forall i :: 0 <= i < |blocks| ==> First(q) <= blocks[i].0 < blocks[i].1 <= Last(q)
  }

  lemma {:induction false} EdgesKept(q: seq<Rec>, x: (int, int), cap: nat, blocks: seq<(int, int)>)
    requires Chain(q) && q != [] && First(q) <= x.0 < x.1 <= Last(q) && Within(q, blocks)
    requires forall i :: 0 <= i < |blocks| ==> x.1 < blocks[i].0 || blocks[i].1 < x.0
    ensures EdgesToCut(Sack(q, x.0, x.1, cap).recs, blocks) == EdgesToCut(q, blocks)
  {
    hide Chain, Sack, NeedsCut;
    if blocks != [] {
      SackKeepsCut(q, x.0, x.1, cap, blocks[0].0);
      SackKeepsCut(q, x.0, x.1, cap, blocks[0].1);
      assert forall i :: 0 <= i < |blocks[1..]| ==> blocks[1..][i] == blocks[i + 1];
      EdgesKept(q, x, cap, blocks[1..]);
    }
  }

  lemma CoveredHead(blocks: seq<(int, int)>, p: int)
    requires blocks != []
    ensures Covered(blocks, p) <==> InBlock(blocks[0], p) || Covered(blocks[1..], p)
  {
    if Covered(blocks, p) && !InBlock(blocks[0], p) {
      var i :| 0 <= i < |blocks| && InBlock(blocks[i], p);
      assert blocks[1..][i - 1] == blocks[i];
    }
    if Covered(blocks[1..], p) {
      var i :| 0 <= i < |blocks[1..]| && InBlock(blocks[1..][i], p);
      assert blocks[i + 1] == blocks[1..][i];
    }
  }

  /** Blocks forget no mark, resend nothing, and mark nothing they do not cover. */
  lemma {:induction false} BlocksEffect(b: Board, blocks: seq<(int, int)>, cap: nat, l: int, r: int, p: int)
    requires Inv(b, cap) && forall i :: 0 <= i < |blocks| ==> l <= blocks[i].0 && blocks[i].1 <= r
    ensures SackEffect(b.recs, Blocks(b, blocks, cap).recs, l, r, p)
    decreases |blocks|
  {
    hide Chain, SentInOrder, Sack, Marked, UnsentTail;
    if blocks == [] {
      SelfEffect(b.recs, l, r, p);
    } else {
      var b1 := Next(b, SackBlock(blocks[0].0, blocks[0].1), cap);
      SackIsBounded(b.recs, blocks[0].0, blocks[0].1, cap, p);
      BlocksEffect(b1, blocks[1..], cap, l, r, p);
      EffectTrans(b.recs, b1.recs, Blocks(b1, blocks[1..], cap).recs, l, r, p);
    }
  }

  ghost predicate AllSacked(blocks: seq<(int, int)>, q: seq<Rec>) {
    forall p :: Covered(blocks, p) ==> Marked(Sacked, q, p)
  }

  lemma AfterHead(b: Board, blocks: seq<(int, int)>, cap: nat)
    requires Inv(b, cap) && blocks != [] && Apart(blocks) && Within(b.recs, blocks)
    ensures var b1 := Next(b, SackBlock(blocks[0].0, blocks[0].1), cap);
            && Apart(blocks[1..]) && Within(b1.recs, blocks[1..])
            && EdgesToCut(b1.recs, blocks[1..]) == EdgesToCut(b.recs, blocks[1..])
  {
    hide Chain, SentInOrder, Sack, EdgesToCut;
    var t := blocks[1..];
    assert forall i :: 0 <= i < |t| ==> t[i] == blocks[i + 1];
    SackKeepsChain(b.recs, blocks[0].0, blocks[0].1, cap);
    EdgesKept(b.recs, blocks[0], cap, t);
  }

  /** Blocks that lie apart are all marked completely exactly when the queue has a
      free slot for each of their edges that needs a cut. */
  lemma {:induction false} BlocksExactIff(b: Board, blocks: seq<(int, int)>, cap: nat)
    requires Inv(b, cap) && Apart(blocks) && Within(b.recs, blocks)
    ensures AllSacked(blocks, Blocks(b, blocks, cap).recs) <==>
            |b.recs| + EdgesToCut(b.recs, blocks) <= cap
    decreases |blocks|
  {
    if blocks != [] {
      hide Chain, SentInOrder, Sack, Marked, CutsNeeded, Within, Covered;
      var x, t := blocks[0], blocks[1..];
      var b1 := Next(b, SackBlock(x.0, x.1), cap);
      HeadFits(b.recs, blocks, cap);
      AfterHead(b, blocks, cap);
      if |b.recs| + CutsNeeded(b.recs, x.0, x.1) <= cap {
        BlocksExactIff(b1, t, cap);
        RestDecides(b, blocks, cap);
      } else {
        HeadMissed(b, blocks, cap);
      }
    }
  }

  /** The first block alone: complete exactly when its own edges find room. */
  lemma HeadFits(q: seq<Rec>, blocks: seq<(int, int)>, cap: nat)
    requires Chain(q) && |q| <= cap && blocks != [] && Within(q, blocks)
    ensures q != []
    ensures var x := blocks[0];
            var o := Sack(q, x.0, x.1, cap).recs;
            && (Complete(q, o, x.0, x.1) <==> |q| + CutsNeeded(q, x.0, x.1) <= cap)
            && (|q| + CutsNeeded(q, x.0, x.1) <= cap ==> |o| == |q| + CutsNeeded(q, x.0, x.1))
  {
    hide Chain, Sack, CutsNeeded, Complete;
    var x := blocks[0];
    SackIsExact(q, x.0, x.1, cap);
    if |q| + CutsNeeded(q, x.0, x.1) <= cap {
      SackGrowth(q, x.0, x.1, cap);
    }
  }

  /** Once the first block is complete, the others decide. */
  lemma RestDecides(b: Board, blocks: seq<(int, int)>, cap: nat)
    requires Inv(b, cap) && blocks != [] && Within(b.recs, blocks)
    requires var x := blocks[0]; Complete(b.recs, Sack(b.recs, x.0, x.1, cap).recs, x.0, x.1)
    ensures var b1 := Next(b, SackBlock(blocks[0].0, blocks[0].1), cap);
            AllSacked(blocks, Blocks(b, blocks, cap).recs) <==>
            AllSacked(blocks[1..], Blocks(b1, blocks[1..], cap).recs)
  {
    hide Chain, SentInOrder, Sack, Marked, Covered;
    var x, t := blocks[0], blocks[1..];
    var b1 := Next(b, SackBlock(x.0, x.1), cap);
    var o := Blocks(b1, t, cap).recs;
    forall p ensures Covered(blocks, p) <==> InBlock(x, p) || Covered(t, p) {
      CoveredHead(blocks, p);
    }
    forall p | InBlock(x, p) ensures Marked(Sacked, o, p) {
      BlocksKeep(b1, t, cap, p);
    }
  }

  lemma {:induction false} BlocksKeep(b: Board, blocks: seq<(int, int)>, cap: nat, p: int)
    requires Inv(b, cap) && Marked(Sacked, b.recs, p)
    ensures Marked(Sacked, Blocks(b, blocks, cap).recs, p)
    decreases |blocks|
  {
    if blocks != [] {
      SackIsBounded(b.recs, blocks[0].0, blocks[0].1, cap, p);
      BlocksKeep(Next(b, SackBlock(blocks[0].0, blocks[0].1), cap), blocks[1..], cap, p);
    }
  }

  /** A byte the first block misses is in no other, so it stays missed. */
  lemma HeadMissed(b: Board, blocks: seq<(int, int)>, cap: nat)
    requires Inv(b, cap) && blocks != [] && Apart(blocks) && b.recs != []
    requires var x := blocks[0]; !Complete(b.recs, Sack(b.recs, x.0, x.1, cap).recs, x.0, x.1)
    ensures !AllSacked(blocks, Blocks(b, blocks, cap).recs)
  {
    hide Chain, SentInOrder, Sack, Marked;
    var x, t := blocks[0], blocks[1..];
    var b1 := Next(b, SackBlock(x.0, x.1), cap);
    var p :| x.0 <= p < x.1 && !Marked(Sacked, b1.recs, p);
    forall i | 0 <= i < |t| ensures !(t[i].0 <= p < t[i].1) {
      assert t[i] == blocks[i + 1];
    }
    if Marked(Sacked, Blocks(b1, t, cap).recs, p) {
      BlocksSacked(b1, t, cap, p);
      assert false;
    }
    assert InBlock(blocks[0], p);
  }

  // ---- An acknowledgement arrives ------------------------------------------

  /** What acting on `m` does to byte `p`: gone below the ACK; above it, SACKED only
      if it was or a block says so, resent until SACKED, and lost as it was, except
      for the unsent tail of a partial retransmission. */
  ghost predicate AckEffect(q: seq<Rec>, q': seq<Rec>, m: AckMsg, p: int) {
    && (forall mk: Mark :: Marked(mk, q', p) ==> m.ack <= p)
    && (Marked(Sacked, q', p) ==> Marked(Sacked, q, p) || Covered(m.blocks, p))
    && (m.ack <= p ==>
          && (Marked(Sacked, q, p) ==> Marked(Sacked, q', p))
          && (Marked(Resent, q', p) <==> Marked(Resent, q, p) && !Marked(Sacked, q', p))
          && (Marked(Lost, q, p) ==> Marked(Lost, q', p) || Marked(Sacked, q', p))
          && (Marked(Lost, q', p) ==> Marked(Lost, q, p) || UnsentTail(q, p)))
  }

  /** `q'` is what the sender makes of `m`, with room for `cap` records. */
  ghost predicate Heeds(q: seq<Rec>, q': seq<Rec>, m: AckMsg, cap: nat) {
    && (forall p :: AckEffect(q, q', m, p))
    && (AllSacked(m.blocks, q') <==> |q| + EdgesToCut(q, m.blocks) <= cap)
  }

  /** Acknowledgement number `k` is ignored if old, else acted on. */
  ghost predicate Heard(s: System, k: nat, q: seq<Rec>, q': seq<Rec>, cap: nat) {
    k < |s.acks| && if s.acks[k].ack < s.una then q' == q else Heeds(q, q', s.acks[k], cap)
  }

  lemma TrimEffect(q: seq<Rec>, q1: seq<Rec>, m: AckMsg, l: int, r: int, p: int)
    requires Chain(q1) && SackEffect(q, q1, l, r, p)
    requires Marked(Sacked, q1, p) ==> Marked(Sacked, q, p) || Covered(m.blocks, p)
    ensures AckEffect(q, AckTo(q1, m.ack), m, p)
  {
    hide Covered;
    var q' := AckTo(q1, m.ack);
    if m.ack <= p {
      AckMarks(Sacked, q1, m.ack, p);
      AckMarks(Resent, q1, m.ack, p);
      AckMarks(Lost, q1, m.ack, p);
      if i :| 0 <= i < |q1| && Inside(q1[i], m.ack) && FreedTail(q1[i], m.ack, p) {
        assert TailByte(q1[i], p);
      }
    } else {
      AckChain(q1, m.ack);
      forall mk: Mark ensures !Marked(mk, q', p) {
        if Marked(mk, q', p) {
          MarkedRange(mk, q', p);
          assert false;
        }
      }
    }
  }

  /** Every acknowledgement a safe sender acts on marks its blocks, completely
      whenever their edges find room, and no other byte; an old one does nothing. */
  lemma AckHeeded(s: System, k: nat, S: R.Stream, cap: nat, max: nat)
    requires Safe(s, S, cap, max) && Enabled(s, AckArrives(k), cap)
    ensures var s' := Protocol.Step(s, AckArrives(k), S, cap, max);
            && Heard(s, k, s.board.recs, s'.board.recs, cap)
            && s'.una == Max(s.una, s.acks[k].ack) && s'.nxt == s.nxt
  {
    hide Safe, Chain, SentInOrder, R.SessionInv, Blocks, Heeds, Marked, R.Shaped;
    var m := s.acks[k];
    AckWithin(s, k, S, cap, max);
    SafeBounds(s, S, cap, max);
    if s.una <= m.ack {
      BoardHeeds(s.board, m, s.una, s.nxt, cap);
    }
  }

  lemma BlocksWithin(q: seq<Rec>, m: AckMsg, una: int, nxt: int)
    requires Spans(q, una, nxt) && una <= m.ack
    requires forall i :: 0 <= i < |m.blocks| ==> m.ack < m.blocks[i].0 < m.blocks[i].1 <= nxt
    ensures Within(q, m.blocks)
  {
    if m.blocks != [] {
      assert m.ack < m.blocks[0].0 < nxt;
    }
  }

  lemma BoardHeeds(b: Board, m: AckMsg, una: int, nxt: int, cap: nat)
    requires Inv(b, cap) && Spans(b.recs, una, nxt) && una <= m.ack <= nxt && Apart(m.blocks)
    requires forall i :: 0 <= i < |m.blocks| ==> m.ack < m.blocks[i].0 < m.blocks[i].1 <= nxt
    ensures Heeds(b.recs, Next(Blocks(b, m.blocks, cap), Ack(m.ack), cap).recs, m, cap)
  {
    hide Chain, SentInOrder, Blocks, Marked, EdgesToCut, AckEffect, UnsentTail;
    var b1 := Blocks(b, m.blocks, cap);
    var q' := AckTo(b1.recs, m.ack);
    forall p ensures AckEffect(b.recs, q', m, p) {
      BlocksEffect(b, m.blocks, cap, una, nxt, p);
      if Marked(Sacked, b1.recs, p) {
        BlocksSacked(b, m.blocks, cap, p);
        if !Marked(Sacked, b.recs, p) {
          var i :| 0 <= i < |m.blocks| && m.blocks[i].0 <= p < m.blocks[i].1;
          assert InBlock(m.blocks[i], p);
        }
      }
      TrimEffect(b.recs, b1.recs, m, una, nxt, p);
    }
    BlocksWithin(b.recs, m, una, nxt);
    BlocksExactIff(b, m.blocks, cap);
    forall p | Covered(m.blocks, p) ensures Marked(Sacked, q', p) <==> Marked(Sacked, b1.recs, p) {
      AckMarks(Sacked, b1.recs, m.ack, p);
    }
  }

  // ---- An acknowledgement is sent ------------------------------------------

  /** `x` is a whole run of held positions. */
  ghost predicate IsRun(rs: seq<Range>, x: (int, int)) {
    x.0 < x.1 && !Held(rs, x.0 - 1) && !Held(rs, x.1) && forall p :: InBlock(x, p) ==> Held(rs, p)
  }

  /** `m` names the first missing position, and as many runs above it as fit. */
  ghost predicate Tells(m: AckMsg, r: R.Recv, limit: nat) {
    && r.base <= m.ack && !R.Got(r, m.ack) && (forall p :: r.base <= p < m.ack ==> R.Got(r, p))
    && |m.blocks| == Min(Min(limit, 4), |r.ranges|) && Apart(m.blocks)
    && forall i :: 0 <= i < |m.blocks| ==> IsRun(r.ranges, m.blocks[i])
  }

  /** The last acknowledgement sent tells what `r` has, the most recent first as long as
      32-bit tags can tell. */
  ghost predicate LastTells(acks: seq<AckMsg>, r: R.Recv, limit: nat) {
    acks != [] && var m := acks[|acks| - 1];
    Tells(m, r, limit) && (Fresh(r) ==> RecentFirst(m.blocks, r.ranges))
  }

  /** Every range was last changed within the last 2^32 - 1 insertions. */
  predicate Fresh(r: R.Recv) {
    forall i :: 0 <= i < |r.ranges| ==> r.ranges[i].stamp < r.clock < r.ranges[i].stamp + MOD
  }

  predicate IsExtent(a: Range, x: (int, int)) {
    x == (a.start, a.end)
  }

  /** `b` is not among the first `i` blocks. */
  predicate Waits(b: Range, blocks: seq<(int, int)>, i: nat)
    requires i <= |blocks|
  {
    forall j :: 0 <= j < i ==> !IsExtent(b, blocks[j])
  }

  /** Nothing reported later, or not at all, changed more recently than a block. */
  predicate RecentFirst(blocks: seq<(int, int)>, rs: seq<Range>) {
    forall i, a, b ::
      0 <= i < |blocks| && a in rs && b in rs && IsExtent(a, blocks[i]) && Waits(b, blocks, i)
      ==> a.stamp >= b.stamp
  }

  lemma RangeIsRun(rs: seq<Range>, nxt: int, j: nat)
    requires RangesOk(rs, nxt) && j < |rs|
    ensures IsRun(rs, (rs[j].start, rs[j].end))
  {
    assert forall p :: rs[j].start <= p < rs[j].end ==> Contains(rs[j], p);
  }

  lemma ReportedRuns(rs: seq<Range>, nxt: int, clock: nat, k: nat)
    requires RangesOk(rs, nxt)
    ensures var bs := Reported(rs, clock, k);
            |bs| == Min(k, |rs|) && forall i :: 0 <= i < |bs| ==> IsRun(rs, bs[i])
  {
    hide Selected, IsRun;
    var bs := Reported(rs, clock, k);
    forall i | 0 <= i < |bs| ensures IsRun(rs, bs[i]) {
      var j := SelectedRange(rs, clock, k, i);
      RangeIsRun(rs, nxt, j);
    }
  }

  lemma SomewhereInIt(all: seq<Range>, k: nat, m: Range)
    requires m in all
    ensures m in Selected(all, k) || m in Unselected(all, k)
  {
    hide Selected, Unselected;
    SelectsNewest(all, k);
    assert m in multiset(all);
  }

  lemma BlockIsIt(rs: seq<Range>, nxt: int, clock: nat, k: nat, i: nat, a: Range)
    requires RangesOk(rs, nxt) && a in rs && i < |Reported(rs, clock, k)|
    requires IsExtent(a, Reported(rs, clock, k)[i])
    ensures Selected(Measured(rs, clock), k)[i] == AsMeasured(a, clock)
  {
    hide Selected;
    var j := SelectedRange(rs, clock, k, i);
    assert rs[j] == a;
  }

  /** A range not among the first `i` selected is selected later, or not at all. */
  lemma ComesLater(all: seq<Range>, k: nat, i: nat, m: Range)
    requires m in all && i < |Selected(all, k)|
    requires forall h :: 0 <= h < i ==> Selected(all, k)[h] != m
    ensures Selected(all, k)[i].stamp >= m.stamp
  {
    hide Selected, Unselected;
    var x, low := Selected(all, k), Unselected(all, k);
    SomewhereInIt(all, k, m);
    SelectionSorts(all, k);
    if m in x {
      var h :| 0 <= h < |x| && x[h] == m;
    } else {
      assert m in low && x[i] in x;
    }
  }

  lemma MeasuredInOrder(rs: seq<Range>, nxt: int, clock: nat, k: nat, i: nat, a: Range, b: Range)
    requires RangesOk(rs, nxt) && a in rs && b in rs && i < |Reported(rs, clock, k)|
    requires IsExtent(a, Reported(rs, clock, k)[i]) && Waits(b, Reported(rs, clock, k), i)
    ensures Age(a, clock) <= Age(b, clock)
  {
    hide Selected, Unselected, RangesOk, Age;
    var all, m := Measured(rs, clock), AsMeasured(b, clock);
    BlockIsIt(rs, nxt, clock, k, i, a);
    var n :| 0 <= n < |rs| && rs[n] == b;
    assert all[n] == m;
    forall h | 0 <= h < i ensures Selected(all, k)[h] != m {
      assert !IsExtent(b, Reported(rs, clock, k)[h]);
    }
    ComesLater(all, k, i, m);
  }

  lemma FreshRecentFirst(r: R.Recv, k: nat)
    requires RangesOk(r.ranges, r.nxt) && Fresh(r)
    ensures RecentFirst(Reported(r.ranges, r.clock, k), r.ranges)
  {
    hide Reported;
    var blocks := Reported(r.ranges, r.clock, k);
    forall i, a, b | 0 <= i < |blocks| && a in r.ranges && b in r.ranges
      && IsExtent(a, blocks[i]) && Waits(b, blocks, i)
      ensures a.stamp >= b.stamp
    {
      MeasuredInOrder(r.ranges, r.nxt, r.clock, k, i, a, b);
      SmallAge(a, r.clock);
      SmallAge(b, r.clock);
    }
  }

  /** The acknowledgement a receiver sends names the first position it is missing,
      and its most recently changed runs above that, newest first. */
  lemma PeerAckTells(s: System, limit: nat, S: R.Stream, cap: nat, max: nat)
    requires Safe(s, S, cap, max)
    ensures var r, s' := s.peer.recv, Protocol.Step(s, PeerAcks(limit), S, cap, max);
            && |s'.acks| == |s.acks| + 1 && s'.acks[..|s.acks|] == s.acks && s' == s.(acks := s'.acks)
            && LastTells(s'.acks, r, limit)
  {
    hide Chain, SentInOrder, Reported, Marked, IsRun, Fresh, RecentFirst, R.IsSlice, Spans;
    var r, k := s.peer.recv, Min(limit, 4);
    R.NextIsMissing(r, max);
    ReportedRuns(r.ranges, r.nxt, r.clock, k);
    ReportedApart(r.ranges, r.nxt, r.clock, k);
    if Fresh(r) {
      FreshRecentFirst(r, k);
    }
  }
}
