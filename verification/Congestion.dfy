/** The congestion state, updated in place by each event, with its whole history. */
module Congestion {
  import opened Serial
  import opened Reno
  import opened CongestionRuns
  import opened PrrBounds
  import PrrTargets

  lemma {:induction false} RunAppend(s: State, l: Ledger, es: seq<Event>, e: Event)
    ensures Run(s, es + [e]) == Step(Run(s, es), e)
    ensures Notes(l, s, es + [e]) == Note(Notes(l, s, es), Run(s, es), e)
    decreases |es|
  {
    hide Step, Note;
    if es == [] {
      assert ([] + [e])[0] == e && ([] + [e])[1..] == [];
    } else {
      assert (es + [e])[0] == es[0] && (es + [e])[1..] == es[1..] + [e];
      RunAppend(Step(s, es[0]), Note(l, s, es[0]), es[1..], e);
    }
  }

  /** No D-SACK, whatever it reports, undoes anything now. */
  ghost predicate NothingToUndo(s: State) {
    forall start: u32, end: u32, mss: u32 :: !Undoes(s, start, end, mss)
  }

  lemma NothingCounted(s: State)
    requires !s.undoValid || s.undoRetrans == 0
    ensures NothingToUndo(s)
  {
  }

  /** As long as no episode left 2^32 retransmissions unreported, the fields hold what
      the bystander notes. */
  lemma HistoryAgrees(iw: u32, es: seq<Event>)
    ensures Trusted(NOTHING, Fresh(iw), es, true) ==> Agrees(Run(Fresh(iw), es), Notes(NOTHING, Fresh(iw), es))
  {
    if Trusted(NOTHING, Fresh(iw), es, true) {
      NotesAgree(Fresh(iw), NOTHING, es, true);
    }
  }

  /** What beginning a reduction for signalled congestion notes. */
  lemma SignalNoted(iw: u32, es: seq<Event>, flight: u32, nxt: u32, mss: u32)
    ensures var e := CongestionSignalled(flight, nxt, mss);
            && Run(Fresh(iw), es + [e]) == Reno.EnterCwr(Run(Fresh(iw), es), flight, nxt, mss)
            && !Notes(NOTHING, Fresh(iw), es + [e]).open
  {
    RunAppend(Fresh(iw), NOTHING, es, CongestionSignalled(flight, nxt, mss));
  }

  /** What beginning a loss episode notes. */
  lemma LossNoted(iw: u32, es: seq<Event>, flight: u32, una: u32, nxt: u32, mss: u32)
    ensures var e, s := LossFound(flight, una, nxt, mss), Run(Fresh(iw), es);
            && Run(Fresh(iw), es + [e]) == Reno.EnterRecovery(s, flight, una, nxt, mss)
            && Notes(NOTHING, Fresh(iw), es + [e]) == Ledger(true, s.cwnd, s.ssthresh, una, 0, 0)
  {
    RunAppend(Fresh(iw), NOTHING, es, LossFound(flight, una, nxt, mss));
  }

  /** How many times `w` fits in `acc`, and what is left over. */
  method WholeParts(acc: nat, w: nat) returns (segs: nat, rest: nat)
    requires w > 0
    ensures segs == acc / w && rest == acc % w
  {
    segs := acc / w;
    rest := acc - segs * w;
  }

  /** The proportional bound in terms of the bytes really sent. */
  lemma ShareBoundsRoom(s: State, r: Round, mss: u32, got: nat, out: nat)
    requires Tallies(s, got, out) && r.pipe > s.ssthresh >= mss
    ensures var room := Room(Updated(s, r, mss).cwnd, r.pipe);
            room > 0 ==> out + room <= Max(Share(got + r.delivered, s.ssthresh, s.recoverFs), mss)
  {
    hide SendCount, Share;
    var t := s.(prrDelivered := Sat64(s.prrDelivered + r.delivered));
    RoomIsSendCount(s, r, mss);
    ProportionalCount(t, r, mss, got + r.delivered);
  }

  /** Unless a counter is near its limit: an update that finds no more in flight than the
      threshold lets out what was delivered and not made up for, at least what the ACK
      delivered, and `extra`, up to the threshold; any other at least the share. And
      always the first lets something out. */
  predicate MakesUp(r: Round, cwnd: u32, ssthresh: u32, fs: u32, mss: u32, got: nat, sent: nat) {
    var room, extra := Room(cwnd, r.pipe), if r.safe then mss else 0;
    && (sent == 0 && mss > 0 && r.pipe < U32_MAX ==> room > 0)
    && (got <= I64_MAX && sent <= I64_MAX && r.pipe <= ssthresh && ssthresh + mss < MOD ==>
          && sent + room >= Min(got + extra, sent + ssthresh - r.pipe)
          && room >= Min(r.delivered + extra, ssthresh - r.pipe))
    && (got <= I64_MAX && sent <= I64_MAX && r.pipe > ssthresh && got * ssthresh <= I64_MAX ==>
          cwnd == U32_MAX || sent + room >= Share(got, ssthresh, fs))
  }

  lemma FirstGoesOut(s: State, r: Round, mss: u32)
    requires InReduction(s.phase) && s.prrOut == 0 && mss > 0 && r.pipe < U32_MAX
    ensures Updated(s, r, mss).cwnd > r.pipe
  {
  }

  lemma UpdateMakesUp(s: State, r: Round, mss: u32, got: nat, out: nat)
    requires Tallies(s, got, out)
    ensures MakesUp(r, Updated(s, r, mss).cwnd, s.ssthresh, s.recoverFs, mss, got + r.delivered, out)
  {
    hide Share, Updated;
    if out == 0 && mss > 0 && r.pipe < U32_MAX {
      FirstGoesOut(s, r, mss);
    }
    if got + r.delivered <= I64_MAX && out <= I64_MAX {
      if r.pipe <= s.ssthresh && s.ssthresh + mss < MOD {
        PrrTargets.RegrowthExact(s, r, mss, got, out);
      } else if r.pipe > s.ssthresh && (got + r.delivered) * s.ssthresh <= I64_MAX {
        PrrTargets.ShareGoesOut(s, r, mss, got, out);
      }
    }
  }

  class Control {
    var cwnd: u32
    var ssthresh: u32
    var phase: Phase
    var recoveryPoint: u32
    var caAcc: u32
    var prrDelivered: u64
    var prrOut: u64
    var recoverFs: u32
    var priorCwnd: u32
    var priorSsthresh: u32
    var undoValid: bool
    var undoMarker: u32
    var undoRetrans: u32

    /** Everything that happened since the start with window `iw`. */
    ghost const iw: u32
    ghost var events: seq<Event>

    /** The current reduction: flight and segment size at its start, and the bytes
        really delivered and sent in it. */
    ghost var flight: u32
    ghost var size: u32
    ghost var got: nat
    ghost var sent: nat

    ghost function View(): State
      reads this
    {
      State(cwnd, ssthresh, phase, recoveryPoint, caAcc, prrDelivered, prrOut, recoverFs,
            priorCwnd, priorSsthresh, undoValid, undoMarker, undoRetrans)
    }

    /** What a bystander has noted of the current loss episode. */
    ghost function Noted(): Ledger
      reads this
    {
      Notes(NOTHING, Fresh(iw), events)
    }

    /** The fields are what the history makes them; during a reduction they go back to
        the flight it started from, and its counters follow the bytes. */
    ghost predicate Valid()
      reads this
    {
      && View() == Run(Fresh(iw), events)
      && (InReduction(phase) ==>
            Tallies(View(), got, sent) && ssthresh == Halved(flight, size) && recoverFs == Max(flight, 1))
      && (phase == Cwr ==> !undoValid)
      && (Trusted(NOTHING, Fresh(iw), events, true) ==> Agrees(View(), Noted()))
    }

    constructor (initial: u32)
      ensures Valid() && iw == initial && events == []
      ensures cwnd == initial && phase == Open && NothingToUndo(View())
      ensures initial < HALF - 1 ==> cwnd < ssthresh
    {
      cwnd, ssthresh, phase, recoveryPoint, caAcc := initial, U32_MAX / 2, Open, 0, 0;
      prrDelivered, prrOut, recoverFs := 0, 0, 1;
      priorCwnd, priorSsthresh, undoValid, undoMarker, undoRetrans := 0, 0, false, 0, 0;
      iw, events, flight, size, got, sent := initial, [], 0, 0, 0, 0;
    }

    /** Growth: below the threshold by every byte delivered, above it by at most one
        segment per window delivered, and not at all in a reduction or while the
        window is not the limit. */
    method OnAck(acked: u32, mss: Mss, limited: bool)
      requires Valid()
      modifies `cwnd, `caAcc, `events
      ensures Valid() && events == old(events) + [Ack(acked, mss, limited)] && Noted() == old(Noted())
      ensures View() == old(View()).(cwnd := cwnd, caAcc := caAcc) && cwnd >= old(cwnd)
      ensures InReduction(phase) || acked == 0 || !limited ==> cwnd == old(cwnd) && caAcc == old(caAcc)
      ensures !InReduction(phase) && limited && old(cwnd) + acked <= ssthresh ==> cwnd == old(cwnd) + acked
      ensures var top: int := Max(old(cwnd), ssthresh);
              !InReduction(phase) && limited && old(cwnd) + acked > ssthresh ==>
                (cwnd - top) * Max(top, mss) <= mss * (old(caAcc) + acked - (top - old(cwnd)) - caAcc)
    {
      hide Run, Notes, Trusted, Agrees, Tallies, Halved, Reno.Avoid;
      RunAppend(Fresh(iw), NOTHING, events, Ack(acked, mss, limited));
      events := events + [Ack(acked, mss, limited)];
      HistoryAgrees(iw, events);
      if InReduction(phase) || acked == 0 || !limited {
        NoGrowth(Max(cwnd, mss), mss, 0);
        return;
      }
      var left: u32 := acked;
      if cwnd < ssthresh {
        var inc := Min(left, ssthresh - cwnd);
        cwnd := SatAdd(cwnd, inc);
        left := left - inc;
        if left == 0 {
          return;
        }
      }
      AvoidGrows(View(), left, mss, Max(cwnd, mss));
      Avoid(left, mss);
    }

    /** The congestion-avoidance half of `OnAck`. */
    method Avoid(acked: u32, mss: Mss)
      modifies `caAcc, `cwnd
      ensures View() == Reno.Avoid(old(View()), acked, mss)
    {
      var acc := SatAdd(caAcc, acked);
      var w: u32 := Max(cwnd, mss);
      if acc >= w {
        var segs: int, rest: int := WholeParts(acc, w);
        caAcc := rest;
        cwnd := SatAdd(cwnd, Sat32(segs * mss));
      } else {
        caAcc := acc;
      }
    }

    method Reduce(to: Phase, inFlight: u32, nxt: u32, mss: u32)
      modifies `ssthresh, `phase, `recoveryPoint, `recoverFs, `prrDelivered, `prrOut, `caAcc
      ensures View() == BeginReduction(old(View()), to, inFlight, nxt, mss)
    {
      ssthresh := Max(inFlight / 2, Sat32(2 * mss));
      phase := to;
      recoveryPoint := nxt;
      recoverFs := Max(inFlight, 1);
      prrDelivered, prrOut, caAcc := 0, 0, 0;
    }

    method Arm(una: u32)
      modifies `priorCwnd, `priorSsthresh, `undoValid, `undoMarker, `undoRetrans
      ensures View() == ArmUndo(old(View()), una)
    {
      priorCwnd, priorSsthresh := cwnd, ssthresh;
      undoValid, undoMarker, undoRetrans := true, una, 0;
    }

    method Disarm()
      modifies `undoValid
      ensures View() == old(View()).(undoValid := false)
    {
      undoValid := false;
    }

    /** A loss episode: noted with the window it started from, and not to be undone
        before something has been retransmitted. */
    method EnterRecovery(inFlight: u32, una: u32, nxt: u32, mss: u32)
      requires Valid()
      modifies this
      ensures Valid() && events == old(events) + [LossFound(inFlight, una, nxt, mss)]
      ensures phase == Recovery && cwnd == old(cwnd) && flight == inFlight && size == mss && got == 0 && sent == 0
      ensures Noted() == Ledger(true, old(cwnd), old(ssthresh), una, 0, 0) && NothingToUndo(View())
    {
      hide Run, Notes, Trusted, Agrees, Halved, NothingToUndo;
      LossNoted(iw, events, inFlight, una, nxt, mss);
      Arm(una);
      Reduce(Recovery, inFlight, nxt, mss);
      flight, size, got, sent := inFlight, mss, 0, 0;
      events := events + [LossFound(inFlight, una, nxt, mss)];
      HistoryAgrees(iw, events);
      NothingCounted(View());
    }

    /** A reduction for signalled congestion: nothing of it can be undone. */
    method EnterCwr(inFlight: u32, nxt: u32, mss: u32)
      requires Valid()
      modifies this
      ensures Valid() && events == old(events) + [CongestionSignalled(inFlight, nxt, mss)]
      ensures phase == Cwr && cwnd == old(cwnd) && flight == inFlight && size == mss && got == 0 && sent == 0
      ensures !Noted().open && NothingToUndo(View())
    {
      hide Run, Notes, Trusted, Agrees, Halved, NothingToUndo;
      SignalNoted(iw, events, inFlight, nxt, mss);
      Signal(inFlight, nxt, mss);
      flight, size, got, sent := inFlight, mss, 0, 0;
      events := events + [CongestionSignalled(inFlight, nxt, mss)];
      HistoryAgrees(iw, events);
      NothingCounted(View());
    }

    method Signal(inFlight: u32, nxt: u32, mss: u32)
      modifies `undoValid, `ssthresh, `phase, `recoveryPoint, `recoverFs, `prrDelivered, `prrOut, `caAcc
      ensures View() == Reno.EnterCwr(old(View()), inFlight, nxt, mss)
    {
      hide BeginReduction;
      Disarm();
      Reduce(Cwr, inFlight, nxt, mss);
    }

    /** The same reduction goes on as recovery, and still cannot be undone. */
    method CwrToRecovery()
      requires Valid()
      modifies `phase, `events
      ensures Valid() && events == old(events) + [Upgrade] && Noted() == old(Noted())
      ensures View() == old(View()).(phase := phase) && phase != Cwr
      ensures flight == old(flight) && size == old(size) && got == old(got) && sent == old(sent)
      ensures old(phase) == Cwr ==> phase == Recovery && NothingToUndo(View())
    {
      hide Run, Notes, Trusted, Agrees, Halved;
      RunAppend(Fresh(iw), NOTHING, events, Upgrade);
      if phase == Cwr {
        phase := Recovery;
      }
      events := events + [Upgrade];
      HistoryAgrees(iw, events);
    }

    /** Counted by the bystander exactly within an undoable loss episode; the window
        is left alone. */
    method OnRetransmit(ghost start: u32, ghost end: u32)
      requires Valid()
      modifies `undoRetrans, `events
      ensures Valid() && events == old(events) + [Retransmit(start, end)]
      ensures View() == old(View()).(undoRetrans := undoRetrans)
      ensures Noted() == old(Noted()).(sent := Noted().sent)
      ensures Noted().sent == old(Noted().sent) + if old(Noted().open) && InLossRecovery(phase) then 1 else 0
      ensures Trusted(NOTHING, Fresh(iw), events, true) && Noted().open ==>
                undoValid && undoRetrans == Noted().sent - Noted().reported
    {
      hide Run, Notes, Trusted, Agrees, Halved;
      RunAppend(Fresh(iw), NOTHING, events, Retransmit(start, end));
      if undoValid && InLossRecovery(phase) {
        undoRetrans := SatAdd(undoRetrans, 1);
      }
      events := events + [Retransmit(start, end)];
      HistoryAgrees(iw, events);
    }

    /** As long as the count was never 2^32 behind: undone exactly when the segments of
        the blocks noted reach the retransmissions of the episode, and then window and
        threshold are those it started from, or better. */
    method OnDsack(start: u32, end: u32, mss: u32) returns (undone: bool)
      requires Valid()
      modifies `undoRetrans, `cwnd, `ssthresh, `phase, `caAcc, `undoValid, `events
      ensures Valid() && events == old(events) + [Dsack(start, end, mss)]
      ensures Trusted(NOTHING, Fresh(iw), old(events), true) ==>
                && (undone <==> AllNeedless(old(Noted()), start, end, mss))
                && (undone ==> cwnd == Max(old(cwnd), old(Noted().cwnd)))
                && (undone ==> ssthresh == Max(old(ssthresh), old(Noted().ssthresh)))
      ensures undone ==> !InLossRecovery(phase) && NothingToUndo(View())
      ensures !undone ==> View() == old(View()).(undoRetrans := undoRetrans)
    {
      hide Run, Notes, Trusted, Agrees, Halved, AllNeedless, Segs, SeqGe;
      RunAppend(Fresh(iw), NOTHING, events, Dsack(start, end, mss));
      if Trusted(NOTHING, Fresh(iw), events, true) {
        UndoIff(iw, events, start, end, mss);
      }
      events := events + [Dsack(start, end, mss)];
      HistoryAgrees(iw, events);
      if !undoValid || undoRetrans == 0 || !SeqGe(start, undoMarker) {
        return false;
      }
      undoRetrans := SatSub(undoRetrans, Segs(start, end, mss));
      if undoRetrans > 0 {
        return false;
      }
      Restore();
      return true;
    }

    method Restore()
      modifies `cwnd, `ssthresh, `phase, `caAcc, `undoValid
      ensures View() == old(View()).(cwnd := Max(old(cwnd), priorCwnd), ssthresh := Max(old(ssthresh), priorSsthresh),
                                     phase := if InLossRecovery(old(phase)) then Open else old(phase),
                                     caAcc := 0, undoValid := false)
    {
      cwnd := Max(cwnd, priorCwnd);
      ssthresh := Max(ssthresh, priorSsthresh);
      if InLossRecovery(phase) {
        phase := Open;
      }
      caAcc := 0;
      undoValid := false;
    }

    /** During a reduction: with more in flight than the threshold, what is already
        sent and what the window now lets out stay within the share of the bytes
        delivered, or one segment, and make up that share; otherwise the window
        regrows at most to the threshold, but for the segment forced out first, and
        makes up for what was delivered, and a segment more when that is safe. */
    method PrrUpdate(delivered: u32, pipe: u32, mss: u32, safe: bool)
      requires Valid()
      modifies `cwnd, `prrDelivered, `got, `events
      ensures Valid() && events == old(events) + [Prr(delivered, pipe, mss, safe)] && Noted() == old(Noted())
      ensures View() == old(View()).(cwnd := cwnd, prrDelivered := prrDelivered)
      ensures !InReduction(phase) ==> View() == old(View())
      ensures InReduction(phase) ==>
                && got == old(got) + delivered && sent == old(sent) && flight == old(flight) && size == old(size)
                && (pipe > ssthresh >= mss && cwnd > pipe ==>
                      sent + (cwnd - pipe) <= Max(Share(got, Halved(flight, size), Max(flight, 1)), mss))
                && (pipe <= ssthresh ==> Max(pipe, mss) <= cwnd <= ssthresh + mss)
                && (pipe <= ssthresh && sent > 0 ==> cwnd <= Max(ssthresh, mss))
      ensures InReduction(phase) ==>
                MakesUp(Round(delivered, pipe, safe, []), cwnd, Halved(flight, size), Max(flight, 1), mss, got, sent)
    {
      hide Run, Notes, Trusted, Agrees, Halved, SendCount, Share, MakesUp;
      RunAppend(Fresh(iw), NOTHING, events, Prr(delivered, pipe, mss, safe));
      events := events + [Prr(delivered, pipe, mss, safe)];
      HistoryAgrees(iw, events);
      if !InReduction(phase) {
        return;
      }
      ghost var s, r := View(), Round(delivered, pipe, safe, []);
      if pipe > ssthresh >= mss {
        ShareBoundsRoom(s, r, mss, got, sent);
      } else if pipe <= ssthresh {
        RegrowthBound(s, r, mss);
      }
      UpdateMakesUp(s, r, mss, got, sent);
      Repace(delivered, pipe, mss, safe);
      got := got + delivered;
    }

    method Repace(delivered: u32, pipe: u32, mss: u32, safe: bool)
      requires InReduction(phase)
      modifies `cwnd, `prrDelivered
      ensures View() == Reno.PrrUpdate(old(View()), delivered, pipe, mss, safe)
    {
      hide SendCount;
      prrDelivered := Sat64(prrDelivered + delivered);
      var n := Budget(delivered, pipe, mss, safe);
      cwnd := Max(Sat32(pipe + n), mss);
    }

    /** The bytes `PrrUpdate` lets out. */
    method Budget(delivered: u32, pipe: u32, mss: u32, safe: bool) returns (n: nat)
      ensures n == SendCount(View(), delivered, pipe, mss, safe)
    {
      hide CeilDiv, Sat64;
      var credit: int, out: int := Min(prrDelivered, I64_MAX), Min(prrOut, I64_MAX);
      var count: int;
      if pipe > ssthresh {
        var total := Sat64(prrDelivered * ssthresh);
        count := Min(CeilDiv(total, Max(recoverFs, 1)), I64_MAX) - out;
      } else {
        var limit: int := Max(credit - out, delivered);
        if safe {
          limit := Min(limit + mss, I64_MAX);
        }
        count := Min(limit, ssthresh - pipe);
      }
      n := Max(count, 0);
      if prrOut == 0 && n == 0 {
        n := mss;
      }
    }

    /** During a reduction every byte sent is counted. */
    method OnSend(bytes: u32)
      requires Valid()
      modifies `prrOut, `sent, `events
      ensures Valid() && events == old(events) + [Send(bytes)] && Noted() == old(Noted())
      ensures View() == old(View()).(prrOut := prrOut)
      ensures sent == old(sent) + if InReduction(phase) then bytes else 0
      ensures flight == old(flight) && size == old(size) && got == old(got)
    {
      hide Run, Notes, Trusted, Agrees, Halved;
      RunAppend(Fresh(iw), NOTHING, events, Send(bytes));
      if InReduction(phase) {
        prrOut := Sat64(prrOut + bytes);
        sent := sent + bytes;
      }
      events := events + [Send(bytes)];
      HistoryAgrees(iw, events);
    }

    /** The window collapses to a segment. Only the first timeout of an episode lowers
        the threshold and, unless congestion was signalled, opens a loss episode. */
    method OnRto(inFlight: u32, una: u32, nxt: u32, mss: u32)
      requires Valid()
      modifies `cwnd, `ssthresh, `caAcc, `phase, `recoveryPoint, `events
      modifies `priorCwnd, `priorSsthresh, `undoValid, `undoMarker, `undoRetrans
      ensures Valid() && events == old(events) + [Timeout(inFlight, una, nxt, mss)]
      ensures phase == Loss && cwnd == mss && recoveryPoint == nxt
      ensures if old(phase) == Open || old(phase) == Cwr || SeqGe(una, old(recoveryPoint))
              then ssthresh == Halved(inFlight, mss) && NothingToUndo(View())
              else ssthresh == old(ssthresh) && Noted() == old(Noted())
      ensures old(phase) == Open || (old(phase) != Cwr && SeqGe(una, old(recoveryPoint))) ==>
                Noted() == Ledger(true, old(cwnd), old(ssthresh), una, 0, 0)
      ensures old(phase) == Cwr ==> !Noted().open
    {
      hide Run, Notes, Trusted, Agrees, SeqGe, Tallies;
      RunAppend(Fresh(iw), NOTHING, events, Timeout(inFlight, una, nxt, mss));
      events := events + [Timeout(inFlight, una, nxt, mss)];
      HistoryAgrees(iw, events);
      Collapse(inFlight, una, nxt, mss);
    }

    method Collapse(inFlight: u32, una: u32, nxt: u32, mss: u32)
      modifies `cwnd, `ssthresh, `caAcc, `phase, `recoveryPoint
      modifies `priorCwnd, `priorSsthresh, `undoValid, `undoMarker, `undoRetrans
      ensures View() == Reno.OnRto(old(View()), inFlight, una, nxt, mss)
    {
      hide SeqGe;
      var over := SeqGe(una, recoveryPoint);
      if phase == Open || phase == Cwr || over {
        if phase == Cwr {
          undoValid := false;
        } else {
          Arm(una);
        }
        ssthresh := Max(inFlight / 2, Sat32(2 * mss));
      }
      cwnd, caAcc, phase, recoveryPoint := mss, 0, Loss, nxt;
    }

    /** An episode ends when the data in flight at its start is acknowledged, and a
        reduction with the window at half that flight. */
    method MaybeExit(una: u32) returns (ended: bool)
      requires Valid()
      modifies `cwnd, `phase, `caAcc, `events
      ensures Valid() && events == old(events) + [Progress(una)] && Noted() == old(Noted())
      ensures ended <==> old(phase) != Open && SeqGe(una, recoveryPoint)
      ensures ended ==> phase == Open && cwnd == if InReduction(old(phase)) then Halved(flight, size) else old(cwnd)
      ensures !ended ==> View() == old(View())
      ensures ssthresh == old(ssthresh) && undoValid == old(undoValid) && undoRetrans == old(undoRetrans)
    {
      hide Run, Notes, Trusted, Agrees, Halved, SeqGe, Tallies;
      RunAppend(Fresh(iw), NOTHING, events, Progress(una));
      events := events + [Progress(una)];
      HistoryAgrees(iw, events);
      if phase == Open || !SeqGe(una, recoveryPoint) {
        return false;
      }
      if InReduction(phase) {
        cwnd := ssthresh;
      }
      phase, caAcc := Open, 0;
      return true;
    }

    /** After idling the window is at most `restart`, and never larger than it was. */
    method OnIdleRestart(restart: u32)
      requires Valid()
      modifies `cwnd, `events
      ensures Valid() && events == old(events) + [Idle(restart)] && Noted() == old(Noted())
      ensures View() == old(View()).(cwnd := cwnd) && cwnd <= old(cwnd)
      ensures if phase == Open then cwnd <= restart && (cwnd == restart || cwnd == old(cwnd)) else cwnd == old(cwnd)
    {
      hide Run, Notes, Trusted, Agrees, Halved;
      RunAppend(Fresh(iw), NOTHING, events, Idle(restart));
      if phase == Open {
        cwnd := Min(cwnd, restart);
      }
      events := events + [Idle(restart)];
      HistoryAgrees(iw, events);
    }
  }
}
