/** Whether undoing a reduction was right: whether every retransmission of the episode
    had really been reported needless. */
module Undo {
  import opened Serial
  import opened Reno
  import opened CongestionRuns

  /** A stretch of sequence numbers, first and one past the last. */
  type Stretch = (u32, u32)

  function Len(x: Stretch): u32 {
    WSub(x.1, x.0)
  }

  /** `x` lies within the block `start .. end`, whatever the wrap. */
  predicate Within(x: Stretch, start: u32, end: u32) {
    WSub(x.0, start) < WSub(x.1, start) <= WSub(end, start)
  }

  // ---- What really happened ------------------------------------------------

  /** What is true of the current loss episode: the retransmissions made in it of which
      no D-SACK has told yet. A segment resent twice is in it twice. */
  datatype Truth = Truth(open: bool, cwnd: u32, ssthresh: u32, una: u32, unreported: multiset<Stretch>)

  const CLEAR: Truth := Truth(false, 0, 0, 0, multiset{})

  /** A block of the episode, with something to report. */
  predicate Heard(t: Truth, start: u32) {
    t.open && t.unreported != multiset{} && SeqGe(start, t.una)
  }

  /** The retransmissions the block newly reports: one of each segment within it. */
  ghost function Newly(t: Truth, start: u32, end: u32): set<Stretch> {
    set x | x in t.unreported && Within(x, start, end)
  }

  /** With this block, every retransmission of the episode has been reported. */
  ghost predicate AllReported(t: Truth, start: u32, end: u32) {
    Heard(t, start) && |Newly(t, start, end)| == |t.unreported|
  }

  /** A retransmission that belongs to the episode. */
  predicate InEpisode(t: Truth, s: State) {
    t.open && InLossRecovery(s.phase)
  }

  ghost function Learn(t: Truth, s: State, e: Event): Truth {
    if StartsLoss(s, e) then Truth(true, s.cwnd, s.ssthresh, e.una, multiset{})
    else
      match e
      case CongestionSignalled(_, _, _) => t.(open := false)
      case Timeout(_, _, _, _) => if s.phase == Cwr then t.(open := false) else t
      case Retransmit(start, end) =>
        if InEpisode(t, s) then t.(unreported := t.unreported + multiset{(start, end)}) else t
      case Dsack(start, end, mss) =>
        if !Heard(t, start) then t
        else t.(unreported := t.unreported - multiset(Newly(t, start, end)), open := !AllReported(t, start, end))
      case _ => t
  }

  /** Blocks are not empty, as the sender checks; retransmissions are of data at or
      above the episode's start. */
  predicate Legal(t: Truth, s: State, e: Event) {
    match e
    case Retransmit(start, end) => SeqLt(start, end) && (InEpisode(t, s) ==> SeqGe(start, t.una))
    case Dsack(start, end, mss) => SeqLt(start, end)
    case _ => true
  }

  // ---- Right decisions, and what makes for them ----------------------------

  /** The code undoes now exactly if every retransmission has been reported. */
  ghost predicate RightAt(t: Truth, s: State, e: Event) {
    e.Dsack? ==> (Undoes(s, e.start, e.end, e.mss) <==> AllReported(t, e.start, e.end))
  }

  ghost predicate RightRun(t: Truth, s: State, es: seq<Event>)
    decreases |es|
  {
    es == [] || (RightAt(t, s, es[0]) && RightRun(Learn(t, s, es[0]), Step(s, es[0]), es[1..]))
  }

  /** A block counts for as many of the retransmissions still unreported as it newly
      reports, and there are never 2^32 of them. */
  ghost predicate Accurate(t: Truth, s: State, e: Event) {
    match e
    case Retransmit(_, _) => InEpisode(t, s) ==> |t.unreported| + 1 < MOD
    case Dsack(start, end, mss) =>
      Heard(t, start) ==> Min(Segs(start, end, mss), |t.unreported|) == |Newly(t, start, end)|
    case _ => true
  }

  ghost predicate LegalRun(t: Truth, s: State, es: seq<Event>)
    decreases |es|
  {
    es == [] || (Legal(t, s, es[0]) && LegalRun(Learn(t, s, es[0]), Step(s, es[0]), es[1..]))
  }

  ghost predicate AccurateRun(t: Truth, s: State, es: seq<Event>)
    decreases |es|
  {
    es == [] || (Accurate(t, s, es[0]) && AccurateRun(Learn(t, s, es[0]), Step(s, es[0]), es[1..]))
  }

  // ---- The counter against the truth ---------------------------------------

  /** Everything but the count. */
  predicate SameEpisode(t: Truth, s: State) {
    && s.undoValid == t.open
    && (t.open ==>
          && s.priorCwnd == t.cwnd && s.priorSsthresh == t.ssthresh && s.undoMarker == t.una
          && forall x :: x in t.unreported ==> SeqLt(x.0, x.1) && SeqGe(x.0, t.una))
  }

  predicate Sound(t: Truth, s: State) {
    SameEpisode(t, s) && (t.open ==> s.undoRetrans == |t.unreported|)
  }

  lemma NewlyIsPart(t: Truth, start: u32, end: u32)
    ensures multiset(Newly(t, start, end)) <= t.unreported
    ensures |t.unreported - multiset(Newly(t, start, end))| == |t.unreported| - |Newly(t, start, end)|
  {
    var n := Newly(t, start, end);
    assert forall x :: multiset(n)[x] <= t.unreported[x];
    assert |multiset(n)| == |n|;
    assert t.unreported == (t.unreported - multiset(n)) + multiset(n);
  }

  /** Accurate events keep the count right, and are decided rightly. */
  lemma AccurateStep(t: Truth, s: State, e: Event)
    requires Sound(t, s) && Legal(t, s, e) && Accurate(t, s, e)
    ensures RightAt(t, s, e) && Sound(Learn(t, s, e), Step(s, e))
  {
    hide Avoid, SendCount, Segs, Halved, SeqGe, SeqLt, Newly, Within;
    if e.Dsack? {
      NewlyIsPart(t, e.start, e.end);
    }
  }

  lemma {:induction false} AccurateIsRight(t: Truth, s: State, es: seq<Event>)
    requires Sound(t, s) && LegalRun(t, s, es) && AccurateRun(t, s, es)
    ensures RightRun(t, s, es)
    decreases |es|
  {
    hide Sound, Legal, Accurate, RightAt, Learn, Step;
    if es != [] {
      AccurateStep(t, s, es[0]);
      AccurateIsRight(Learn(t, s, es[0]), Step(s, es[0]), es[1..]);
    }
  }

  // ---- A wrong count shows -------------------------------------------------

  /** The count is off, with the episode open on both sides. */
  predicate Off(t: Truth, s: State) {
    SameEpisode(t, s) && t.open && 0 < s.undoRetrans && 0 < |t.unreported| && s.undoRetrans != |t.unreported|
  }

  lemma Shortest(m: multiset<Stretch>, x: Stretch) returns (y: Stretch)
    requires x in m
    ensures y in m && forall z :: z in m ==> Len(y) <= Len(z)
    decreases Len(x)
  {
    if z :| z in m && Len(z) < Len(x) {
      y := Shortest(m, z);
    } else {
      y := x;
    }
  }

  /** A block that is one of the shortest retransmissions reports just that one. */
  lemma OneReported(t: Truth, x: Stretch)
    requires x in t.unreported && forall z :: z in t.unreported ==> Len(x) <= Len(z)
    requires SeqLt(x.0, x.1)
    ensures Newly(t, x.0, x.1) == {x} && Segs(x.0, x.1, Len(x)) == 1
  {
    assert WSub(x.0, x.0) == 0 && 0 < Len(x);
    forall z | z in t.unreported && Within(z, x.0, x.1) ensures z == x {
      SameStretch(z, x);
    }
    OneSegment(Len(x));
  }

  lemma SameStretch(z: Stretch, x: Stretch)
    requires Within(z, x.0, x.1) && Len(x) <= Len(z)
    ensures z == x
  {
    var a, b := WSub(z.0, x.0), WSub(z.1, x.0);
    assert Len(z) == b - a;
    assert a == 0 && b == Len(x);
  }

  lemma OneSegment(n: u32)
    requires n > 0
    ensures CeilDiv(n, n) == 1
  {
    assert n + n - 1 == 1 * n + (n - 1);
    assert (n + n - 1) / n == 1;
  }

  /** Reporting what is left, a retransmission at a time, leads to a wrong decision. */
  lemma {:induction false} WrongInTheEnd(t: Truth, s: State) returns (es: seq<Event>)
    requires Off(t, s)
    ensures LegalRun(t, s, es) && AccurateRun(t, s, es) && !RightRun(t, s, es)
    decreases |t.unreported|
  {
    var any :| any in t.unreported;
    var x := Shortest(t.unreported, any);
    OneReported(t, x);
    var e := Dsack(x.0, x.1, Len(x));
    ReportOne(t, s, x);
    if s.undoRetrans == 1 || |t.unreported| == 1 {
      es := [e];
    } else {
      var rest := WrongInTheEnd(Learn(t, s, e), Step(s, e));
      es := [e] + rest;
      assert es[1..] == rest;
    }
  }

  lemma ReportOne(t: Truth, s: State, x: Stretch)
    requires Off(t, s) && x in t.unreported && SeqLt(x.0, x.1)
    requires Newly(t, x.0, x.1) == {x} && Segs(x.0, x.1, Len(x)) == 1
    ensures var e := Dsack(x.0, x.1, Len(x));
            && Legal(t, s, e) && Accurate(t, s, e)
            && (RightAt(t, s, e) <==> s.undoRetrans > 1 && |t.unreported| > 1)
            && (s.undoRetrans > 1 && |t.unreported| > 1 ==>
                  Off(Learn(t, s, e), Step(s, e)) && |Learn(t, s, e).unreported| == |t.unreported| - 1)
  {
    hide Segs, Newly, SeqLt, SeqGe;
    NewlyIsPart(t, x.0, x.1);
    assert multiset({x}) == multiset{x};
  }

  /** An event that is not accurate is decided wrongly, or leaves the count off. */
  lemma InaccurateStep(t: Truth, s: State, e: Event)
    requires Sound(t, s) && Legal(t, s, e) && !Accurate(t, s, e)
    ensures !RightAt(t, s, e) || Off(Learn(t, s, e), Step(s, e))
  {
    hide Segs, Newly, SeqLt, SeqGe;
    if e.Dsack? {
      NewlyIsPart(t, e.start, e.end);
    }
  }

  // ---- Exactly when undos can be relied on ---------------------------------

  /** However things go on, as long as blocks are accurate, decisions are right. */
  ghost predicate Reliable(t: Truth, s: State) {
    forall es :: LegalRun(t, s, es) && AccurateRun(t, s, es) ==> RightRun(t, s, es)
  }

  /** Every decision of the run is right, and at every point of it decisions can be
      relied on. */
  ghost predicate AlwaysReliable(t: Truth, s: State, es: seq<Event>)
    decreases |es|
  {
    Reliable(t, s)
    && (es == [] || (RightAt(t, s, es[0]) && AlwaysReliable(Learn(t, s, es[0]), Step(s, es[0]), es[1..])))
  }

  lemma {:induction false} ReliableIffAccurate(t: Truth, s: State, es: seq<Event>)
    requires Sound(t, s) && LegalRun(t, s, es)
    ensures AlwaysReliable(t, s, es) <==> AccurateRun(t, s, es)
    decreases |es|
  {
    hide Sound, Legal, Accurate, RightAt, Learn, Step, Off;
    forall ext | LegalRun(t, s, ext) && AccurateRun(t, s, ext) ensures RightRun(t, s, ext) {
      AccurateIsRight(t, s, ext);
    }
    if es != [] {
      var t', s' := Learn(t, s, es[0]), Step(s, es[0]);
      if Accurate(t, s, es[0]) {
        AccurateStep(t, s, es[0]);
        ReliableIffAccurate(t', s', es[1..]);
      } else {
        InaccurateStep(t, s, es[0]);
        if RightAt(t, s, es[0]) {
          var ext := WrongInTheEnd(t', s');
          assert !Reliable(t', s');
        }
      }
    }
  }

  /** Over any history: every undo decision was right, and would be however the history
      went on from any point of it with accurate blocks, exactly when every block of it
      counted for as many retransmissions as it newly reported and there were never
      2^32 unreported. */
  lemma UndoReliableIff(iw: u32, es: seq<Event>)
    requires LegalRun(CLEAR, Fresh(iw), es)
    ensures AlwaysReliable(CLEAR, Fresh(iw), es) <==> AccurateRun(CLEAR, Fresh(iw), es)
  {
    ReliableIffAccurate(CLEAR, Fresh(iw), es);
  }

  // ---- Where the promise fails ---------------------------------------------

  ghost function Learned(t: Truth, s: State, es: seq<Event>): Truth
    decreases |es|
  {
    if es == [] then t else Learned(Learn(t, s, es[0]), Step(s, es[0]), es[1..])
  }

  /** `dsack_valid`: a block is believed if it is not empty, lies within what was sent
      and the largest window, and all blocks so far count for no more segments than
      were retransmitted. */
  predicate Believed(start: u32, end: u32, mss: u32, counted: nat, resent: nat, nxt: u32, window: u32) {
    && SeqLt(start, end) && !SeqGt(end, nxt) && WSub(end, start) <= window
    && counted + CeilDiv(WSub(end, start), Max(mss, 1)) <= resent
  }

  const REPEATED: seq<Event> :=
    [LossFound(10, 0, 10, 1), Retransmit(0, 1), Retransmit(1, 2), Dsack(0, 1, 1)]

  /** Recovery with the given retransmissions unreported, and rightly counted. */
  predicate Recovering(t: Truth, s: State, unreported: multiset<Stretch>) {
    && t.open && t.una == 0 && t.unreported == unreported
    && s.phase == Recovery && s.undoValid && s.undoMarker == 0 && s.undoRetrans == |unreported|
  }

  lemma ResendStep(t: Truth, s: State, m: multiset<Stretch>, x: Stretch)
    requires Recovering(t, s, m) && |m| < 2 && SeqLt(x.0, x.1) && SeqGe(x.0, 0)
    ensures var e := Retransmit(x.0, x.1);
            && Legal(t, s, e) && Accurate(t, s, e)
            && Recovering(Learn(t, s, e), Step(s, e), m + multiset{x})
  {
  }

  lemma ReportStep(t: Truth, s: State)
    requires Recovering(t, s, multiset{(0, 1), (1, 2)})
    ensures var e := Dsack(0, 1, 1);
            && Legal(t, s, e) && Accurate(t, s, e)
            && Recovering(Learn(t, s, e), Step(s, e), multiset{(1, 2)})
  {
    assert Newly(t, 0, 1) == {(0, 1)};
    assert multiset({(0, 1)}) == multiset{(0, 1)};
  }

  /** `es` goes by the rules and leaves the second retransmission unreported. */
  ghost predicate LeavesOne(t: Truth, s: State, es: seq<Event>) {
    && LegalRun(t, s, es) && AccurateRun(t, s, es)
    && Recovering(Learned(t, s, es), Run(s, es), multiset{(1, 2)})
  }

  lemma LeavesOneStep(t: Truth, s: State, e: Event, rest: seq<Event>)
    requires Legal(t, s, e) && Accurate(t, s, e) && LeavesOne(Learn(t, s, e), Step(s, e), rest)
    ensures LeavesOne(t, s, [e] + rest)
  {
    hide Step, Learn, Legal, Accurate, Recovering;
    assert ([e] + rest)[1..] == rest;
  }

  lemma RepeatedLeavesOne(iw: u32)
    ensures LeavesOne(CLEAR, Fresh(iw), REPEATED)
  {
    var e1, e2, e3, e4 := LossFound(10, 0, 10, 1), Retransmit(0, 1), Retransmit(1, 2), Dsack(0, 1, 1);
    var s1, t1 := Step(Fresh(iw), e1), Learn(CLEAR, Fresh(iw), e1);
    assert Recovering(t1, s1, multiset{}) && Legal(CLEAR, Fresh(iw), e1) && Accurate(CLEAR, Fresh(iw), e1);
    hide Step, Learn, Legal, Accurate, Recovering, Run, Learned, LegalRun, AccurateRun;
    ResendStep(t1, s1, multiset{}, (0, 1));
    var s2, t2 := Step(s1, e2), Learn(t1, s1, e2);
    ResendStep(t2, s2, multiset{} + multiset{(0, 1)}, (1, 2));
    var s3, t3 := Step(s2, e3), Learn(t2, s2, e3);
    assert multiset{} + multiset{(0, 1)} + multiset{(1, 2)} == multiset{(0, 1), (1, 2)};
    ReportStep(t3, s3);
    NothingMore(Learn(t3, s3, e4), Step(s3, e4));
    LeavesOneStep(t3, s3, e4, []);
    LeavesOneStep(t2, s2, e3, [e4] + []);
    LeavesOneStep(t1, s1, e2, [e3] + ([e4] + []));
    LeavesOneStep(CLEAR, Fresh(iw), e1, [e2] + ([e3] + ([e4] + [])));
    assert REPEATED == [e1] + ([e2] + ([e3] + ([e4] + [])));
  }

  lemma NothingMore(t: Truth, s: State)
    requires Recovering(t, s, multiset{(1, 2)})
    ensures LeavesOne(t, s, [])
  {
  }

  /** Two segments resent, one of them reported, and the report arriving twice: both
      are believed, and the second undoes the reduction although the other segment was
      never reported. */
  lemma RepeatedBlockUndoes(iw: u32)
    ensures var s, t := Run(Fresh(iw), REPEATED), Learned(CLEAR, Fresh(iw), REPEATED);
            && LegalRun(CLEAR, Fresh(iw), REPEATED) && AccurateRun(CLEAR, Fresh(iw), REPEATED)
            && Believed(0, 1, 1, 0, 2, 10, 10) && Believed(0, 1, 1, 1, 2, 10, 10)
            && Undoes(s, 0, 1, 1) && t.open && t.unreported == multiset{(1, 2)} && !AllReported(t, 0, 1)
  {
    RepeatedLeavesOne(iw);
    hide Run, Learned, LegalRun, AccurateRun;
    var t := Learned(CLEAR, Fresh(iw), REPEATED);
    assert Newly(t, 0, 1) == {};
  }

  /** With 2^32 - 1 retransmissions unreported, one more is lost count of, and from
      there accurate blocks lead to a wrong decision. */
  lemma SaturationMisleads(t: Truth, s: State, start: u32, end: u32)
    requires Sound(t, s) && InEpisode(t, s) && |t.unreported| == U32_MAX
    requires Legal(t, s, Retransmit(start, end))
    ensures !Reliable(Learn(t, s, Retransmit(start, end)), Step(s, Retransmit(start, end)))
  {
    var e := Retransmit(start, end);
    InaccurateStep(t, s, e);
    var ext := WrongInTheEnd(Learn(t, s, e), Step(s, e));
  }
}
