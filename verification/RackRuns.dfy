/** Runs of the sender's queue together with RACK: what it takes for a
    transmission to be condemned. */
module RackRuns {
  import opened Options
  import opened Serial
  import opened Scoreboard
  import opened Sacking
  import opened QueueRuns
  import opened RtxQueue
  import opened Rack
  import opened Sendings
  import B = ByteEffects

  /** A delivery RACK was told of, with what its ambiguity filter looked at. */
  datatype Delivery = Delivery(rec: Rec, now: nat, tsecr: Option<u32>, minRtt: Option<u32>)

  /** A record RACK was told of, and how many it had been told of when the ACK began. */
  datatype Told = Told(rec: Rec, before: nat)

  /** The queue, what RACK knows, the deliveries that passed the filter, and all
      deliveries, with how many there were when the current ACK began. */
  datatype World = World(board: Board, known: Known, credits: seq<Delivery>, told: seq<Told>, begun: nat)

  datatype Event =
    | Queue(op: Op)
    | AckStart
    | AckNumber(una: int, now: nat, tsecr: Option<u32>, minRtt: Option<u32>)
    | Block(left: int, right: int, now: nat, minRtt: Option<u32>)
    | Scan(now: nat, reoWnd: u32)

  const START: World :=
    World(Board([], 0), Known(false, Mile(0, 0), 0, None, None, false), [], [], 0)

  /** Tell RACK of the delivered records in turn. */
  function Tell(w: World, hits: seq<Rec>, now: nat, tsecr: Option<u32>, minRtt: Option<u32>): World
    decreases |hits|
  {
    if hits == [] then w
    else
      var s := hits[0];
      var w1 := w.(known := Delivered(w.known, s, now, tsecr, minRtt),
                   credits := if Ambiguous(s, now, tsecr, minRtt) then w.credits
                              else w.credits + [Delivery(s, now, tsecr, minRtt)],
                   told := w.told + [Told(s, w.begun)]);
      Tell(w1, hits[1..], now, tsecr, minRtt)
  }

  /** A cumulative ACK reports only records not already SACKED. */
  function NewlyAcked(hits: seq<Rec>): seq<Rec> {
    if hits == [] then []
    else (if hits[0].flags.sacked then [] else [hits[0]]) + NewlyAcked(hits[1..])
  }

  function Happen(w: World, e: Event, cap: nat): World
    requires Inv(w.board, cap)
  {
    match e
    case Queue(op) => w.(board := Next(w.board, op, cap))
    case AckStart => w.(known := w.known.(prior := w.known.fack), begun := |w.told|)
    case AckNumber(una, now, tsecr, minRtt) =>
      Tell(w.(board := Next(w.board, Ack(una), cap)),
           NewlyAcked(AckHits(w.board.recs, una)), now, tsecr, minRtt)
    case Block(left, right, now, minRtt) =>
      Tell(w.(board := Next(w.board, SackBlock(left, right), cap)),
           Sack(w.board.recs, left, right, cap).hits, now, None, minRtt)
    case Scan(now, reoWnd) =>
      if !w.known.valid then w
      else w.(board := w.board.(recs :=
                 FullScan(w.known.mile, w.board.recs, now, w.known.rtt + reoWnd)))
  }

  /** The mile is the latest-sent of the deliveries that passed the filter, and the
      round trip that of the last of them, clamped to 32 bits. */
  ghost predicate MileIsLatest(k: Known, credits: seq<Delivery>) {
    && (k.valid <==> credits != [])
    && (k.valid ==> exists i :: 0 <= i < |credits| && MileOf(credits[i].rec) == k.mile)
    && (k.valid ==> var d := credits[|credits| - 1]; k.rtt == Min(Max(d.now - d.rec.ts, 0), U32_MAX))
    && (forall i :: 0 <= i < |credits| ==> !Later(MileOf(credits[i].rec), k.mile))
    && (forall i :: 0 <= i < |credits| ==> Passed(credits[i]))
  }

  /** Sent only once; or the echo, if any, is no older than the last transmission, and
      that was sent at least the least round trip, if known, ago. */
  predicate Passed(d: Delivery) {
    d.rec.flags.ever ==>
      && (d.tsecr.Some? ==> WSub(d.tsecr.value, Wire(d.rec.ts)) < HALF)
      && (d.minRtt.Some? ==> Max(d.now - d.rec.ts, 0) >= d.minRtt.value)
  }

  lemma PassedIff(d: Delivery)
    ensures Passed(d) <==> !Ambiguous(d.rec, d.now, d.tsecr, d.minRtt)
  {
  }

  /** `top` is the highest end told of. */
  ghost predicate IsTop(top: Option<int>, told: seq<Told>) {
    && (top.None? <==> told == [])
    && (forall i :: 0 <= i < |told| ==> top.Some? && told[i].rec.end <= top.value)
    && (top.Some? ==> exists i :: 0 <= i < |told| && told[i].rec.end == top.value)
  }

  /** Delivery `i`, sent only once, lies below one that an earlier ACK delivered. */
  ghost predicate OutOfOrder(told: seq<Told>, i: nat) {
    && i < |told| && !told[i].rec.flags.ever
    && exists j :: 0 <= j < told[i].before && j < |told| && told[j].rec.end > told[i].rec.end
  }

  /** RACK's highest delivered position, now and before this ACK, are just that, and
      it has seen reordering exactly if something was delivered out of order. */
  ghost predicate FacksAre(k: Known, told: seq<Told>, begun: nat) {
    && begun <= |told| && IsTop(k.fack, told) && IsTop(k.prior, told[..begun])
    && (forall i :: 0 <= i < |told| ==> told[i].before <= i)
    && (k.reordering <==> exists i :: OutOfOrder(told, i))
  }

  ghost predicate WorldInv(w: World, cap: nat) {
    Inv(w.board, cap) && MileIsLatest(w.known, w.credits) && FacksAre(w.known, w.told, w.begun)
  }

  lemma CreditKeeps(k: Known, credits: seq<Delivery>, d: Delivery)
    requires MileIsLatest(k, credits) && Passed(d)
    ensures MileIsLatest(Delivered(k, d.rec, d.now, d.tsecr, d.minRtt), credits + [d])
  {
    PassedIff(d);
    var c := credits + [d];
    assert c[|credits|] == d;
    if k.valid {
      var i :| 0 <= i < |credits| && MileOf(credits[i].rec) == k.mile;
      assert c[i] == credits[i];
    }
  }

  lemma TopKeeps(top: Option<int>, told: seq<Told>, x: Told)
    requires IsTop(top, told)
    ensures IsTop(if top.None? || top.value < x.rec.end then Some(x.rec.end) else top, told + [x])
  {
    var c := told + [x];
    assert c[|told|] == x;
    if top.Some? {
      var i :| 0 <= i < |told| && told[i].rec.end == top.value;
      assert c[i] == told[i];
    }
  }

  lemma OrderTold(told: seq<Told>, x: Told, i: nat)
    requires x.before <= |told| && forall k :: 0 <= k < |told| ==> told[k].before <= k
    ensures i < |told| ==> (OutOfOrder(told + [x], i) <==> OutOfOrder(told, i))
    ensures i > |told| ==> !OutOfOrder(told + [x], i)
    ensures OutOfOrder(told + [x], |told|) <==>
            !x.rec.flags.ever && exists j :: 0 <= j < x.before && told[j].rec.end > x.rec.end
  {
    var c := told + [x];
    assert forall j :: 0 <= j < |told| ==> c[j] == told[j];
  }

  lemma NoteKeeps(k: Known, told: seq<Told>, begun: nat, s: Rec)
    requires FacksAre(k, told, begun)
    ensures FacksAre(Noted(k, s), told + [Told(s, begun)], begun)
  {
    hide IsTop, OutOfOrder;
    var x := Told(s, begun);
    var c, k' := told + [x], Noted(k, s);
    TopKeeps(k.fack, told, x);
    assert c[..begun] == told[..begun];
    forall i: nat ensures OutOfOrder(c, i) <==>
      if i == |told| then k.prior.Some? && !s.flags.ever && s.end < k.prior.value else OutOfOrder(told, i)
    {
      OrderTold(told, x, i);
      BelowTop(k.prior, told, begun, s.end);
      OutOfRange(told, i);
    }
    if k.reordering {
      var i :| OutOfOrder(told, i);
      OutOfRange(told, i);
      assert OutOfOrder(c, i);
    } else if k'.reordering {
      assert OutOfOrder(c, |told|);
    } else {
      assert forall i: nat :: !OutOfOrder(told, i);
    }
  }

  lemma OutOfRange(told: seq<Told>, i: nat)
    ensures OutOfOrder(told, i) ==> i < |told|
  {
  }

  lemma BelowTop(top: Option<int>, told: seq<Told>, n: nat, end: int)
    requires n <= |told| && IsTop(top, told[..n])
    ensures top.Some? && end < top.value <==> exists j :: 0 <= j < n && told[j].rec.end > end
  {
    var t := told[..n];
    assert forall j :: 0 <= j < n ==> t[j] == told[j];
  }

  lemma TellOne(w: World, s: Rec, now: nat, tsecr: Option<u32>, minRtt: Option<u32>)
    requires MileIsLatest(w.known, w.credits) && FacksAre(w.known, w.told, w.begun)
    ensures var k := Delivered(w.known, s, now, tsecr, minRtt);
            var credits := if Ambiguous(s, now, tsecr, minRtt) then w.credits
                           else w.credits + [Delivery(s, now, tsecr, minRtt)];
            MileIsLatest(k, credits) && FacksAre(k, w.told + [Told(s, w.begun)], w.begun)
  {
    hide IsTop, OutOfOrder, Passed;
    NoteKeeps(w.known, w.told, w.begun, s);
    PassedIff(Delivery(s, now, tsecr, minRtt));
    if !Ambiguous(s, now, tsecr, minRtt) {
      CreditKeeps(w.known, w.credits, Delivery(s, now, tsecr, minRtt));
    }
  }

  lemma {:induction false} TellKeeps(w: World, hits: seq<Rec>, now: nat, tsecr: Option<u32>, minRtt: Option<u32>)
    requires MileIsLatest(w.known, w.credits) && FacksAre(w.known, w.told, w.begun)
    ensures var w' := Tell(w, hits, now, tsecr, minRtt);
            w'.board == w.board && MileIsLatest(w'.known, w'.credits) && FacksAre(w'.known, w'.told, w'.begun)
    decreases |hits|
  {
    if hits != [] {
      hide MileIsLatest, FacksAre, Delivered, Ambiguous;
      var s := hits[0];
      TellOne(w, s, now, tsecr, minRtt);
      var w1 := w.(known := Delivered(w.known, s, now, tsecr, minRtt),
                   credits := if Ambiguous(s, now, tsecr, minRtt) then w.credits
                              else w.credits + [Delivery(s, now, tsecr, minRtt)],
                   told := w.told + [Told(s, w.begun)]);
      TellKeeps(w1, hits[1..], now, tsecr, minRtt);
    }
  }

  lemma ScanKeeps(b: Board, m: Mile, now: nat, thresh: nat, cap: nat)
    requires Inv(b, cap)
    ensures Inv(b.(recs := FullScan(m, b.recs, now, thresh)), cap)
  {
    var r := FullScan(m, b.recs, now, thresh);
    forall i | 0 <= i < |r| ensures RecOk(r[i]) && SameExtent(b.recs[i], r[i]) {
      assert RecOk(b.recs[i]);
    }
    OrderKept(b.recs, r, b.nextXmit);
  }

  lemma AckStartKeeps(w: World, cap: nat)
    requires WorldInv(w, cap)
    ensures WorldInv(Happen(w, AckStart, cap), cap)
  {
    assert w.told[..|w.told|] == w.told;
  }

  lemma HappenKeeps(w: World, e: Event, cap: nat)
    requires WorldInv(w, cap)
    ensures WorldInv(Happen(w, e, cap), cap)
  {
    hide Chain, SentInOrder, Tell, MileIsLatest, FacksAre;
    match e
    case Queue(op) =>
    case AckStart => AckStartKeeps(w, cap);
    case AckNumber(una, now, tsecr, minRtt) =>
      TellKeeps(w.(board := Next(w.board, Ack(una), cap)),
                NewlyAcked(AckHits(w.board.recs, una)), now, tsecr, minRtt);
    case Block(left, right, now, minRtt) =>
      TellKeeps(w.(board := Next(w.board, SackBlock(left, right), cap)),
                Sack(w.board.recs, left, right, cap).hits, now, None, minRtt);
    case Scan(now, reoWnd) =>
      ScanKeeps(w.board, w.known.mile, now, w.known.rtt + reoWnd, cap);
  }

  /** The state after any sequence of events. */
  function Reached(es: seq<Event>, cap: nat): (w: World)
    ensures WorldInv(w, cap)
  {
    if es == [] then START
    else
      var w := Reached(es[..|es| - 1], cap);
      HappenKeeps(w, es[|es| - 1], cap);
      Happen(w, es[|es| - 1], cap)
  }

  lemma CondemnedHere(w: World, cap: nat, now: nat, reoWnd: u32, i: nat)
    requires WorldInv(w, cap) && i < |w.board.recs|
    ensures var s, s' := w.board.recs[i], Happen(w, Scan(now, reoWnd), cap).board.recs[i];
            && (s' == s || s' == Condemned(s))
            && (s' != s <==>
                && !s.flags.sacked && (s.flags.lost ==> s.flags.retrans)
                && (now - s.ts >= w.known.rtt + reoWnd || now >= U64_MAX)
                && exists k :: 0 <= k < |w.credits| && Passed(w.credits[k])
                               && Later(MileOf(w.credits[k].rec), MileOf(s)))
  {
    hide SentInOrder, Ambiguous, Passed, FacksAre;
    var s := w.board.recs[i];
    if w.known.valid {
      var k :| 0 <= k < |w.credits| && MileOf(w.credits[k].rec) == w.known.mile;
      assert RecOk(s);
    }
  }

  /** In every reachable state, a scan condemns exactly the unacknowledged
      records, not already waiting to be resent, sent at least a round trip and the
      reordering window ago (or whenever, once the clock has reached its last value),
      for which some transmission ordered after them was delivered and passed the
      ambiguity filter. */
  lemma CondemnedIff(es: seq<Event>, cap: nat, now: nat, reoWnd: u32, i: nat)
    requires i < |Reached(es, cap).board.recs|
    ensures var w := Reached(es, cap);
            var s, s' := w.board.recs[i], Happen(w, Scan(now, reoWnd), cap).board.recs[i];
            && (s' == s || s' == Condemned(s))
            && (s' != s <==>
                && !s.flags.sacked && (s.flags.lost ==> s.flags.retrans)
                && (now - s.ts >= w.known.rtt + reoWnd || now >= U64_MAX)
                && exists k :: 0 <= k < |w.credits| && Passed(w.credits[k])
                               && Later(MileOf(w.credits[k].rec), MileOf(s)))
  {
    hide Reached, Happen, Later, Condemned, WorldInv, Inv, Chain, SentInOrder, MileIsLatest;
    CondemnedHere(Reached(es, cap), cap, now, reoWnd, i);
  }

  // ---- What RACK is told ---------------------------------------------------

  /** `p` lies in a record RACK was told of between `w` and `w'`. */
  ghost predicate NewlyTold(w: World, w': World, p: int) {
    exists i :: |w.told| <= i < |w'.told| && Holds(w'.told[i].rec, p)
  }

  lemma {:induction false} TellAdds(w: World, hits: seq<Rec>, now: nat, tsecr: Option<u32>, minRtt: Option<u32>)
    ensures var w' := Tell(w, hits, now, tsecr, minRtt);
            && |w'.told| == |w.told| + |hits| && w'.board == w.board
            && forall i :: 0 <= i < |hits| ==> w'.told[|w.told| + i].rec == hits[i]
    ensures w.told <= Tell(w, hits, now, tsecr, minRtt).told
    decreases |hits|
  {
    if hits != [] {
      hide Delivered, Ambiguous;
      var s := hits[0];
      var w1 := w.(known := Delivered(w.known, s, now, tsecr, minRtt),
                   credits := if Ambiguous(s, now, tsecr, minRtt) then w.credits
                              else w.credits + [Delivery(s, now, tsecr, minRtt)],
                   told := w.told + [Told(s, w.begun)]);
      TellAdds(w1, hits[1..], now, tsecr, minRtt);
      var t := Tell(w1, hits[1..], now, tsecr, minRtt).told;
      assert t[|w.told|] == w1.told[|w.told|];
      forall i | 0 <= i < |hits| ensures t[|w.told| + i].rec == hits[i] {
        if i > 0 {
          assert t[|w1.told| + (i - 1)].rec == hits[1..][i - 1];
        }
      }
    }
  }

  lemma ToldIsHits(w: World, hits: seq<Rec>, now: nat, tsecr: Option<u32>, minRtt: Option<u32>, p: int)
    ensures NewlyTold(w, Tell(w, hits, now, tsecr, minRtt), p) <==> B.InHits(hits, p)
  {
    var w' := Tell(w, hits, now, tsecr, minRtt);
    TellAdds(w, hits, now, tsecr, minRtt);
    if NewlyTold(w, w', p) {
      var i :| |w.told| <= i < |w'.told| && Holds(w'.told[i].rec, p);
      assert w'.told[|w.told| + (i - |w.told|)].rec == hits[i - |w.told|];
    }
    if B.InHits(hits, p) {
      var i :| 0 <= i < |hits| && Holds(hits[i], p);
      assert Holds(w'.told[|w.told| + i].rec, p);
    }
  }

  ghost predicate Unsacked(hits: seq<Rec>, p: int) {
    exists i :: 0 <= i < |hits| && Holds(hits[i], p) && !hits[i].flags.sacked
  }

  lemma {:induction false} NewlyAckedAre(hits: seq<Rec>, p: int)
    ensures B.InHits(NewlyAcked(hits), p) <==> Unsacked(hits, p)
  {
    if hits != [] {
      var t := hits[1..];
      NewlyAckedAre(t, p);
      assert forall i :: 0 < i < |hits| ==> hits[i] == t[i - 1];
      if Unsacked(t, p) {
        var i :| 0 <= i < |t| && Holds(t[i], p) && !t[i].flags.sacked;
        assert hits[i + 1] == t[i];
      }
      if hits[0].flags.sacked {
        assert NewlyAcked(hits) == NewlyAcked(t);
      } else {
        B.FirstHit(hits[0], NewlyAcked(t), p);
      }
    }
  }

  /** A cumulative ACK tells RACK of exactly the records not SACKED before that begin
      below it. */
  lemma AckTells(w: World, una: int, now: nat, tsecr: Option<u32>, minRtt: Option<u32>, cap: nat, p: int)
    requires Inv(w.board, cap)
    ensures var q, w' := w.board.recs, Happen(w, AckNumber(una, now, tsecr, minRtt), cap);
            NewlyTold(w, w', p) <==>
            exists k :: 0 <= k < |q| && Holds(q[k], p) && q[k].start < una && !q[k].flags.sacked
  {
    hide Chain, SentInOrder, Tell, B.InHits, NewlyTold;
    var q := w.board.recs;
    var hits := AckHits(q, una);
    var w1 := w.(board := Next(w.board, Ack(una), cap));
    ToldIsHits(w1, NewlyAcked(hits), now, tsecr, minRtt, p);
    SameTold(w, w1, Happen(w, AckNumber(una, now, tsecr, minRtt), cap), p);
    NewlyAckedAre(hits, p);
    B.AckHitsAre(q, una);
    assert forall i :: 0 <= i < |hits| ==> hits[i] == q[i];
  }

  lemma SameTold(w: World, w1: World, w': World, p: int)
    requires w.told == w1.told
    ensures NewlyTold(w, w', p) <==> NewlyTold(w1, w', p)
  {
  }

  /** A block tells it of exactly the bytes it newly SACKs. */
  lemma BlockTells(w: World, left: int, right: int, now: nat, minRtt: Option<u32>, cap: nat, p: int)
    requires Inv(w.board, cap)
    ensures var w' := Happen(w, Block(left, right, now, minRtt), cap);
            NewlyTold(w, w', p) <==>
            Marked(Sacked, w'.board.recs, p) && !Marked(Sacked, w.board.recs, p)
  {
    hide Chain, SentInOrder, Tell, B.InHits, NewlyTold, Marked, Sack;
    var w1 := w.(board := Next(w.board, SackBlock(left, right), cap));
    var hits := Sack(w.board.recs, left, right, cap).hits;
    ToldIsHits(w1, hits, now, None, minRtt, p);
    TellAdds(w1, hits, now, None, minRtt);
    SameTold(w, w1, Happen(w, Block(left, right, now, minRtt), cap), p);
    B.SackHitsAre(w.board.recs, left, right, cap, p);
  }
}
