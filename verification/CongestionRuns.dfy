/** What congestion control guarantees over whole runs of events. */
module CongestionRuns {
  import opened Serial
  import opened Reno

  // ---- Events --------------------------------------------------------------

  datatype Event =
    | Ack(acked: u32, size: Mss, limited: bool)
    | LossFound(flight: u32, una: u32, nxt: u32, mss: u32)
    | CongestionSignalled(flight: u32, nxt: u32, mss: u32)
    | Upgrade
    | Retransmit(start: u32, end: u32)
    | Dsack(start: u32, end: u32, mss: u32)
    | Prr(delivered: u32, pipe: u32, mss: u32, safe: bool)
    | Send(bytes: u32)
    | Timeout(flight: u32, una: u32, nxt: u32, mss: u32)
    | Progress(una: u32)
    | Idle(iw: u32)

  function Step(s: State, e: Event): State {
    match e
    case Ack(acked, size, limited) => OnAck(s, acked, size, limited)
    case LossFound(flight, una, nxt, mss) => EnterRecovery(s, flight, una, nxt, mss)
    case CongestionSignalled(flight, nxt, mss) => EnterCwr(s, flight, nxt, mss)
    case Upgrade => CwrToRecovery(s)
    case Retransmit(_, _) => OnRetransmit(s)
    case Dsack(start, end, mss) => OnDsack(s, start, end, mss)
    case Prr(delivered, pipe, mss, safe) => PrrUpdate(s, delivered, pipe, mss, safe)
    case Send(bytes) => OnSend(s, bytes)
    case Timeout(flight, una, nxt, mss) => OnRto(s, flight, una, nxt, mss)
    case Progress(una) => MaybeExit(s, una)
    case Idle(iw) => OnIdleRestart(s, iw)
  }

  function Run(s: State, es: seq<Event>): State
    decreases |es|
  {
    if es == [] then s else Run(Step(s, es[0]), es[1..])
  }

  // ---- The rest of an episode ----------------------------------------------

  /** `e` neither begins, ends nor undoes an episode; a repeated timeout is such. */
  predicate Calm(s: State, e: Event) {
    match e
    case LossFound(_, _, _, _) => false
    case CongestionSignalled(_, _, _) => false
    case Timeout(_, una, _, _) => s.phase == Loss && !FirstTimeout(s, una)
    case Progress(una) => !Exits(s, una)
    case Dsack(start, end, mss) => !Undoes(s, start, end, mss)
    case _ => true
  }

  predicate AllCalm(s: State, es: seq<Event>)
    decreases |es|
  {
    es == [] || (Calm(s, es[0]) && AllCalm(Step(s, es[0]), es[1..]))
  }

  lemma CalmStep(s: State, e: Event)
    requires Calm(s, e) && s.phase != Open
    ensures var t := Step(s, e);
            && t.ssthresh == s.ssthresh
            && (InReduction(s.phase) ==> InReduction(t.phase) && t.recoveryPoint == s.recoveryPoint)
            && (s.phase == Loss ==> t.phase == Loss)
  {
    hide Avoid, SendCount, Segs, Halved;
  }

  lemma {:induction false} CalmRun(s: State, es: seq<Event>)
    requires AllCalm(s, es) && s.phase != Open
    ensures var t := Run(s, es);
            && t.ssthresh == s.ssthresh
            && (InReduction(s.phase) ==> InReduction(t.phase) && t.recoveryPoint == s.recoveryPoint)
            && (s.phase == Loss ==> t.phase == Loss)
    decreases |es|
  {
    hide Step, Calm;
    if es != [] {
      CalmStep(s, es[0]);
      CalmRun(Step(s, es[0]), es[1..]);
    }
  }

  /** A reduction, whatever happens during it, ends exactly when the data in flight
      at its start is acknowledged, with the window at half that flight. */
  lemma ReductionExits(s: State, flight: u32, una: u32, nxt: u32, mss: u32, es: seq<Event>, ack: u32, loss: bool)
    requires AllCalm(if loss then EnterRecovery(s, flight, una, nxt, mss) else EnterCwr(s, flight, nxt, mss), es)
    ensures var t := Run(if loss then EnterRecovery(s, flight, una, nxt, mss) else EnterCwr(s, flight, nxt, mss), es);
            && (Exits(t, ack) <==> SeqGe(ack, nxt))
            && (SeqGe(ack, nxt) ==> MaybeExit(t, ack).phase == Open && MaybeExit(t, ack).cwnd == Halved(flight, mss))
            && (!SeqGe(ack, nxt) ==> MaybeExit(t, ack) == t)
  {
    hide AllCalm, Run;
    CalmRun(if loss then EnterRecovery(s, flight, una, nxt, mss) else EnterCwr(s, flight, nxt, mss), es);
  }

  /** However often the timer fires again in one episode, `ssthresh` keeps the value
      of its first timeout. */
  lemma TimeoutHalvesOnce(s: State, flight: u32, una: u32, nxt: u32, mss: u32, es: seq<Event>)
    requires FirstTimeout(s, una) && AllCalm(OnRto(s, flight, una, nxt, mss), es)
    ensures Run(OnRto(s, flight, una, nxt, mss), es).ssthresh == Halved(flight, mss)
    ensures Run(OnRto(s, flight, una, nxt, mss), es).phase == Loss
  {
    hide AllCalm, Run;
    CalmRun(OnRto(s, flight, una, nxt, mss), es);
  }

  // ---- Undo ----------------------------------------------------------------

  /** `e` begins a loss episode, which may be undone. */
  predicate StartsLoss(s: State, e: Event) {
    e.LossFound? || (e.Timeout? && s.phase != Cwr && FirstTimeout(s, e.una))
  }

  /** What a bystander notes of the current loss episode: the window and the oldest
      unacknowledged byte at its start, the segments retransmitted in it, and the
      segments D-SACKs have since reported. */
  datatype Ledger = Ledger(open: bool, cwnd: u32, ssthresh: u32, una: u32, sent: nat, reported: nat)

  const NOTHING: Ledger := Ledger(false, 0, 0, 0, 0, 0)

  /** A D-SACK block the bystander counts. */
  predicate Noted(l: Ledger, start: u32) {
    l.open && l.sent > 0 && SeqGe(start, l.una)
  }

  /** By count, the block completes the report of every retransmission. */
  predicate AllNeedless(l: Ledger, start: u32, end: u32, mss: u32) {
    Noted(l, start) && l.reported + Segs(start, end, mss) >= l.sent
  }

  function Note(l: Ledger, s: State, e: Event): Ledger {
    if StartsLoss(s, e) then Ledger(true, s.cwnd, s.ssthresh, e.una, 0, 0)
    else
      match e
      case CongestionSignalled(_, _, _) => l.(open := false)
      case Timeout(_, _, _, _) => if s.phase == Cwr then l.(open := false) else l
      case Retransmit(_, _) => if l.open && InLossRecovery(s.phase) then l.(sent := l.sent + 1) else l
      case Dsack(start, end, mss) =>
        if !Noted(l, start) then l
        else l.(reported := l.reported + Segs(start, end, mss), open := !AllNeedless(l, start, end, mss))
      case _ => l
  }

  function Notes(l: Ledger, s: State, es: seq<Event>): Ledger
    decreases |es|
  {
    if es == [] then l else Notes(Note(l, s, es[0]), Step(s, es[0]), es[1..])
  }

  /** The state's own fields agree with the bystander's notes. */
  predicate Agrees(s: State, l: Ledger) {
    && s.undoValid == l.open
    && (l.open ==>
          && s.priorCwnd == l.cwnd && s.priorSsthresh == l.ssthresh && s.undoMarker == l.una
          && s.undoRetrans == l.sent - l.reported
          && (l.sent > 0 ==> l.reported < l.sent))
  }

  lemma NoteAgrees(s: State, l: Ledger, e: Event)
    requires Agrees(s, l)
    requires var l' := Note(l, s, e); l'.open ==> l'.sent - l'.reported < MOD
    ensures Agrees(Step(s, e), Note(l, s, e))
  {
    hide Avoid, SendCount, Segs, Halved, SeqGe;
  }

  /** `e` begins an episode: what was counted before no longer matters. */
  predicate Resets(s: State, e: Event) {
    StartsLoss(s, e) || e.CongestionSignalled? || (e.Timeout? && s.phase == Cwr)
  }

  lemma ResetAgrees(s: State, l: Ledger, e: Event)
    requires Resets(s, e)
    ensures Agrees(Step(s, e), Note(l, s, e))
  {
    hide Halved, SeqGe;
  }

  /** In the current episode, 2^32 retransmissions were never unreported at once. */
  predicate Trusted(l: Ledger, s: State, es: seq<Event>, ok: bool)
    decreases |es|
  {
    if es == [] then ok
    else
      var l' := Note(l, s, es[0]);
      Trusted(l', Step(s, es[0]), es[1..],
              Resets(s, es[0]) || (ok && (l'.open ==> l'.sent - l'.reported < MOD)))
  }

  lemma {:induction false} NotesAgree(s: State, l: Ledger, es: seq<Event>, ok: bool)
    requires (ok ==> Agrees(s, l)) && Trusted(l, s, es, ok)
    ensures Agrees(Run(s, es), Notes(l, s, es))
    decreases |es|
  {
    hide Step, Note, Agrees, Resets;
    if es != [] {
      var e, l' := es[0], Note(l, s, es[0]);
      var ok' := Resets(s, e) || (ok && (l'.open ==> l'.sent - l'.reported < MOD));
      if Resets(s, e) {
        ResetAgrees(s, l, e);
      } else if ok' {
        NoteAgrees(s, l, e);
      }
      NotesAgree(Step(s, e), l', es[1..], ok');
    }
  }

  /** After any history, a D-SACK undoes the reduction exactly when the segments of the
      blocks at or above the start of the current loss episode reach the number of
      retransmissions made in it, and then the window and threshold are raised to what they were when
      it began. */
  lemma UndoIff(iw: u32, es: seq<Event>, start: u32, end: u32, mss: u32)
    requires Trusted(NOTHING, Fresh(iw), es, true)
    ensures var s, l := Run(Fresh(iw), es), Notes(NOTHING, Fresh(iw), es);
            && (Undoes(s, start, end, mss) <==> AllNeedless(l, start, end, mss))
            && (Undoes(s, start, end, mss) ==>
                  var t := OnDsack(s, start, end, mss);
                  && t.cwnd == Max(s.cwnd, l.cwnd) && t.ssthresh == Max(s.ssthresh, l.ssthresh)
                  && !InLossRecovery(t.phase) && !t.undoValid)
  {
    hide Run, Notes, Trusted, Segs, SeqGe;
    NotesAgree(Fresh(iw), NOTHING, es, true);
  }

  // ---- Signalled congestion ------------------------------------------------

  predicate NoNewLoss(s: State, es: seq<Event>)
    decreases |es|
  {
    es == [] || (!StartsLoss(s, es[0]) && NoNewLoss(Step(s, es[0]), es[1..]))
  }

  lemma {:induction false} StaysUnarmed(s: State, es: seq<Event>)
    requires !s.undoValid && NoNewLoss(s, es)
    ensures !Run(s, es).undoValid
    decreases |es|
  {
    hide Avoid, SendCount, Halved;
    if es != [] {
      StaysUnarmed(Step(s, es[0]), es[1..]);
    }
  }

  /** A reduction for signalled congestion, even upgraded to recovery or followed by
      its timeout, is never undone before a new loss episode begins. */
  lemma SignalledNeverUndone(s: State, flight: u32, nxt: u32, mss: u32, es: seq<Event>, e: Event)
    requires NoNewLoss(EnterCwr(s, flight, nxt, mss), es) && e.Dsack?
    ensures var t := Run(EnterCwr(s, flight, nxt, mss), es);
            !Undoes(t, e.start, e.end, e.mss) && Step(t, e) == t
  {
    hide Run, NoNewLoss;
    StaysUnarmed(EnterCwr(s, flight, nxt, mss), es);
  }
}
