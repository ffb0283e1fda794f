/** Reno congestion control with Proportional Rate Reduction and D-SACK undo. */
module Reno {
  import opened Serial

  const I64_MAX: int := 0x7FFF_FFFF_FFFF_FFFF

  /** A segment size; the stack's is never zero, which growth divides by. */
  type Mss = x: int | 1 <= x < MOD witness 1

  datatype Phase = Open | Recovery | Loss | Cwr

  /** The congestion state, as a value. */
  datatype State = State(cwnd: u32, ssthresh: u32, phase: Phase, recoveryPoint: u32, caAcc: u32,
                         prrDelivered: u64, prrOut: u64, recoverFs: u32,
                         priorCwnd: u32, priorSsthresh: u32,
                         undoValid: bool, undoMarker: u32, undoRetrans: u32)

  predicate InReduction(p: Phase) { p == Recovery || p == Cwr }

  predicate InLossRecovery(p: Phase) { p == Recovery || p == Loss }

  // ---- Saturating arithmetic -----------------------------------------------

  function Sat32(x: nat): u32 { if x < MOD then x else U32_MAX }

  function Sat64(x: nat): u64 { if x <= U64_MAX then x else U64_MAX }

  function CeilDiv(n: nat, d: nat): nat
    requires d > 0
  {
    (n + d - 1) / d
  }

  // ---- What each event does ------------------------------------------------

  function Fresh(iw: u32): State {
    State(iw, U32_MAX / 2, Open, 0, 0, 0, 0, 1, 0, 0, false, 0, 0)
  }

  /** Slow start takes what is below `ssthresh`; the rest counts toward one MSS per
      window delivered. */
  function OnAck(s: State, acked: u32, mss: Mss, limited: bool): State {
    if InReduction(s.phase) || acked == 0 || !limited then s
    else
      var inc := if s.cwnd < s.ssthresh then Min(acked, s.ssthresh - s.cwnd) else 0;
      var t := s.(cwnd := Sat32(s.cwnd + inc));
      if acked == inc then t else Avoid(t, acked - inc, mss)
  }

  function Avoid(s: State, acked: u32, mss: Mss): (t: State)
    ensures t == s.(cwnd := t.cwnd, caAcc := t.caAcc) && t.cwnd >= s.cwnd
  {
    var acc, w := Sat32(s.caAcc + acked), Max(s.cwnd, mss);
    if acc < w then s.(caAcc := acc)
    else s.(caAcc := acc % w, cwnd := Sat32(s.cwnd + Sat32(acc / w * mss)))
  }

  function Halved(flight: u32, mss: u32): u32 {
    Max(flight / 2, Sat32(2 * mss))
  }

  /** Half the flight, rounded down, or two segments if that is more. */
  lemma HalvedIsHalf(flight: u32, mss: u32)
    ensures var h := Halved(flight, mss);
            && (flight >= 4 * mss ==> 2 * h <= flight < 2 * h + 2)
            && (flight < 4 * mss && 2 * mss < MOD ==> h == 2 * mss)
            && (2 * mss >= MOD ==> h == U32_MAX)
  {
  }

  function BeginReduction(s: State, phase: Phase, flight: u32, nxt: u32, mss: u32): State {
    s.(ssthresh := Halved(flight, mss), phase := phase, recoveryPoint := nxt,
       recoverFs := Max(flight, 1), prrDelivered := 0, prrOut := 0, caAcc := 0)
  }

  function ArmUndo(s: State, una: u32): State {
    s.(priorCwnd := s.cwnd, priorSsthresh := s.ssthresh, undoValid := true,
       undoMarker := una, undoRetrans := 0)
  }

  function EnterRecovery(s: State, flight: u32, una: u32, nxt: u32, mss: u32): State {
    BeginReduction(ArmUndo(s, una), Recovery, flight, nxt, mss)
  }

  function EnterCwr(s: State, flight: u32, nxt: u32, mss: u32): State {
    BeginReduction(s.(undoValid := false), Cwr, flight, nxt, mss)
  }

  function CwrToRecovery(s: State): State {
    if s.phase == Cwr then s.(phase := Recovery) else s
  }

  function OnRetransmit(s: State): State {
    if s.undoValid && InLossRecovery(s.phase) then s.(undoRetrans := SatAdd(s.undoRetrans, 1)) else s
  }

  /** Segments a D-SACK block stands for. */
  function Segs(start: u32, end: u32, mss: u32): u32 {
    Max(CeilDiv(WSub(end, start), Max(mss, 1)), 1)
  }

  /** The fewest segments of `mss` bytes that cover the block, and at least one. */
  lemma SegsCover(start: int, len: u32, mss: u32)
    requires mss > 0
    ensures var n := Segs(Wire(start), Wire(start + len), mss);
            n >= 1 && len <= n * mss && (n > 1 ==> (n - 1) * mss < len)
  {
    SerialDistance(start + len, start);
    var n := (len + mss - 1) / mss;
    assert n * mss <= len + mss - 1 < (n + 1) * mss;
  }

  /** The D-SACK block is one the episode counts. */
  predicate Counts(s: State, start: u32) {
    s.undoValid && s.undoRetrans > 0 && SeqGe(start, s.undoMarker)
  }

  predicate Undoes(s: State, start: u32, end: u32, mss: u32) {
    Counts(s, start) && s.undoRetrans <= Segs(start, end, mss)
  }

  function OnDsack(s: State, start: u32, end: u32, mss: u32): State {
    if !Counts(s, start) then s
    else
      var t := s.(undoRetrans := SatSub(s.undoRetrans, Segs(start, end, mss)));
      if t.undoRetrans > 0 then t
      else t.(cwnd := Max(s.cwnd, s.priorCwnd), ssthresh := Max(s.ssthresh, s.priorSsthresh),
              phase := if InLossRecovery(s.phase) then Open else s.phase,
              caAcc := 0, undoValid := false)
  }

  /** Bytes PRR lets out on this ACK, before the floor at zero. */
  function Allowance(s: State, delivered: u32, pipe: u32, mss: u32, safe: bool): int {
    var out := Min(s.prrOut, I64_MAX);
    if pipe > s.ssthresh then
      Min(CeilDiv(Sat64(s.prrDelivered * s.ssthresh), Max(s.recoverFs, 1)), I64_MAX) - out
    else
      var limit := Max(Min(s.prrDelivered, I64_MAX) - out, delivered);
      Min(if safe then Min(limit + mss, I64_MAX) else limit, s.ssthresh - pipe)
  }

  /** The first ACK of an episode always lets a segment out. */
  function SendCount(s: State, delivered: u32, pipe: u32, mss: u32, safe: bool): nat {
    var n := Max(Allowance(s, delivered, pipe, mss, safe), 0);
    if s.prrOut == 0 && n == 0 then mss else n
  }

  function PrrUpdate(s: State, delivered: u32, pipe: u32, mss: u32, safe: bool): State {
    if !InReduction(s.phase) then s
    else
      var t := s.(prrDelivered := Sat64(s.prrDelivered + delivered));
      t.(cwnd := Max(Sat32(pipe + SendCount(t, delivered, pipe, mss, safe)), mss))
  }

  function OnSend(s: State, bytes: u32): State {
    if InReduction(s.phase) then s.(prrOut := Sat64(s.prrOut + bytes)) else s
  }

  /** This timeout is the first of a loss episode. */
  predicate FirstTimeout(s: State, una: u32) {
    s.phase == Open || s.phase == Cwr || SeqGe(una, s.recoveryPoint)
  }

  function OnRto(s: State, flight: u32, una: u32, nxt: u32, mss: u32): State {
    var t := if !FirstTimeout(s, una) then s
             else (if s.phase == Cwr then s.(undoValid := false) else ArmUndo(s, una))
                  .(ssthresh := Halved(flight, mss));
    t.(cwnd := mss, caAcc := 0, phase := Loss, recoveryPoint := nxt)
  }

  predicate Exits(s: State, una: u32) {
    s.phase != Open && SeqGe(una, s.recoveryPoint)
  }

  function MaybeExit(s: State, una: u32): State {
    if !Exits(s, una) then s
    else s.(cwnd := if InReduction(s.phase) then s.ssthresh else s.cwnd, phase := Open, caAcc := 0)
  }

  function OnIdleRestart(s: State, iw: u32): State {
    if s.phase == Open then s.(cwnd := Min(s.cwnd, iw)) else s
  }
}
