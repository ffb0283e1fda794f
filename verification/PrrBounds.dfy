/** How much Proportional Rate Reduction and window growth let out over a run. */
module PrrBounds {
  import opened Serial
  import opened Reno

  // ---- Arithmetic ----------------------------------------------------------

  lemma AtMost(q: int, p: int, d: int)
    requires d > 0 && q * d < (p + 1) * d
    ensures q <= p
  {
  }

  lemma CeilMono(a: nat, b: nat, d: nat)
    requires a <= b && d > 0
    ensures CeilDiv(a, d) <= CeilDiv(b, d)
  {
    AtMost((a + d - 1) / d, (b + d - 1) / d, d);
  }

  lemma MulMono(a: nat, b: nat, c: nat)
    requires a <= b
    ensures a * c <= b * c
  {
  }

  /** The share of `delivered` a reduction to `ssthresh` from `fs` may send. */
  function Share(delivered: nat, ssthresh: u32, fs: u32): nat {
    CeilDiv(delivered * ssthresh, Max(fs, 1))
  }

  lemma ShareMono(d: nat, d': nat, ssthresh: u32, fs: u32)
    requires d <= d'
    ensures Share(d, ssthresh, fs) <= Share(d', ssthresh, fs)
  {
    hide CeilDiv;
    MulMono(d, d', ssthresh);
    CeilMono(d * ssthresh, d' * ssthresh, Max(fs, 1));
  }

  lemma ShareAtMostWhole(d: nat, ssthresh: u32, fs: u32)
    requires ssthresh <= Max(fs, 1)
    ensures Share(d, ssthresh, fs) <= d
  {
    hide CeilDiv;
    var m := Max(fs, 1);
    assert d * ssthresh <= d * m;
    CeilMono(d * ssthresh, d * m, m);
    CeilExact(d, m);
  }

  lemma CeilExact(d: nat, m: nat)
    requires m > 0
    ensures CeilDiv(d * m, m) == d
  {
    CeilShift(0, d, m);
    AtMost((m - 1) / m, 0, m);
  }

  lemma CeilShift(a: nat, d: nat, m: nat)
    requires m > 0
    ensures CeilDiv(a + d * m, m) == CeilDiv(a, m) + d
  {
    var x := a + m - 1;
    var p, q := x / m, (x + d * m) / m;
    assert q * m <= x + d * m < (q + 1) * m;
    assert p * m <= x < (p + 1) * m;
    assert (p + d) * m == p * m + d * m;
    assert (p + d + 1) * m == (p + 1) * m + d * m;
    AtMost(q, p + d, m);
    AtMost(p + d, q, m);
  }

  /** What `delivered` bytes entitle a sender to, whichever branch is taken. */
  function Due(delivered: nat, ssthresh: u32, fs: u32): nat {
    Max(delivered, Share(delivered, ssthresh, fs))
  }

  /** Every delivered byte is due a byte more. */
  lemma DueGrows(got: nat, d: nat, ssthresh: u32, fs: u32)
    ensures Due(got, ssthresh, fs) + d <= Due(got + d, ssthresh, fs)
  {
    hide CeilDiv;
    var m: int := Max(fs, 1);
    if ssthresh <= m {
      ShareAtMostWhole(got, ssthresh, fs);
    } else {
      CeilShift(got * ssthresh, d, m);
      MulMono(m, ssthresh, d);
      assert (got + d) * ssthresh == got * ssthresh + d * ssthresh;
      CeilMono(got * ssthresh + d * m, (got + d) * ssthresh, m);
    }
  }

  // ---- Rounds of an episode ------------------------------------------------

  /** One ACK of an episode and the segments sent until the next. */
  datatype Round = Round(delivered: u32, pipe: u32, safe: bool, sends: seq<u32>)

  function Total(ns: seq<u32>): nat {
    if ns == [] then 0 else ns[0] + Total(ns[1..])
  }

  function Delivered(rs: seq<Round>): nat {
    if rs == [] then 0 else rs[0].delivered + Delivered(rs[1..])
  }

  function Sent(rs: seq<Round>): nat {
    if rs == [] then 0 else Total(rs[0].sends) + Sent(rs[1..])
  }

  function SendAll(s: State, ns: seq<u32>): State
    decreases |ns|
  {
    if ns == [] then s else SendAll(OnSend(s, ns[0]), ns[1..])
  }

  function Updated(s: State, r: Round, mss: u32): State {
    PrrUpdate(s, r.delivered, r.pipe, mss, r.safe)
  }

  function Play(s: State, r: Round, mss: u32): State {
    SendAll(Updated(s, r, mss), r.sends)
  }

  lemma {:induction false} SendAllAdds(s: State, ns: seq<u32>)
    requires InReduction(s.phase)
    ensures SendAll(s, ns) == s.(prrOut := Sat64(s.prrOut + Total(ns)))
    decreases |ns|
  {
    if ns != [] {
      SendAllAdds(OnSend(s, ns[0]), ns[1..]);
    }
  }

  /** The sender lets out no more than the window leaves room for, give or take
      `slack` for finishing the segment that crosses it. */
  predicate Obeys(cwnd: u32, pipe: u32, ns: seq<u32>, slack: nat) {
    Total(ns) <= if cwnd > pipe then cwnd - pipe + slack else 0
  }

  predicate AllObey(s: State, rs: seq<Round>, mss: u32, slack: nat)
    decreases |rs|
  {
    rs == [] || (Obeys(Updated(s, rs[0], mss).cwnd, rs[0].pipe, rs[0].sends, slack)
                 && AllObey(Play(s, rs[0], mss), rs[1..], mss, slack))
  }

  /** The sending loop: another segment, of at most `mss` bytes, while the data in
      flight is below the window. */
  predicate Looped(cwnd: u32, pipe: nat, ns: seq<u32>, mss: u32)
    decreases |ns|
  {
    ns == [] || (pipe < cwnd && ns[0] <= mss && Looped(cwnd, pipe + ns[0], ns[1..], mss))
  }

  lemma {:induction false} LoopObeys(cwnd: u32, pipe: nat, ns: seq<u32>, mss: u32)
    requires mss > 0 && Looped(cwnd, pipe, ns, mss)
    ensures Total(ns) <= if cwnd > pipe then cwnd - pipe + mss - 1 else 0
    decreases |ns|
  {
    if ns != [] {
      LoopObeys(cwnd, pipe + ns[0], ns[1..], mss);
    }
  }

  // ---- The proportional branch ---------------------------------------------

  /** Room the window leaves after an update. */
  function Room(cwnd: u32, pipe: u32): nat {
    if cwnd > pipe then cwnd - pipe else 0
  }

  lemma RoomIsSendCount(s: State, r: Round, mss: u32)
    requires InReduction(s.phase) && r.pipe >= mss
    ensures var t := s.(prrDelivered := Sat64(s.prrDelivered + r.delivered));
            Room(Updated(s, r, mss).cwnd, r.pipe) <= SendCount(t, r.delivered, r.pipe, mss, r.safe)
  {
    hide SendCount;
  }

  /** With `t` already credited for the ACK: the share bounds what is out after it. */
  lemma ProportionalCount(t: State, r: Round, mss: u32, got: nat)
    requires r.pipe > t.ssthresh && t.prrDelivered <= got
    ensures var n := SendCount(t, r.delivered, r.pipe, mss, r.safe);
            && (n > 0 ==> t.prrOut + n <= Max(Share(got, t.ssthresh, t.recoverFs), mss))
            && (n > 0 && t.prrOut > 0 ==> t.prrOut < I64_MAX)
  {
    hide CeilDiv, Share;
    var fs := Max(t.recoverFs, 1);
    var d, ss: nat := t.prrDelivered, t.ssthresh;
    assert CeilDiv(Sat64(d * ss), fs) <= Share(got, t.ssthresh, t.recoverFs) by {
      ShareBounds(d, got, t.ssthresh, t.recoverFs);
    }
  }

  lemma ShareBounds(d: nat, got: nat, ssthresh: u32, fs: u32)
    requires d <= got
    ensures CeilDiv(Sat64(d * ssthresh), Max(fs, 1)) <= Share(got, ssthresh, fs)
  {
    hide CeilDiv;
    MulMono(d, got, ssthresh);
    CeilMono(Sat64(d * ssthresh), got * ssthresh, Max(fs, 1));
  }

  /** Every update of the run finds more in flight than `ssthresh`. */
  predicate AllProportional(ssthresh: u32, rs: seq<Round>) {
    forall k :: 0 <= k < |rs| ==> rs[k].pipe > ssthresh
  }

  /** The state's counters hold the true totals, clamped to 64 bits. */
  predicate Tallies(s: State, got: nat, out: nat) {
    InReduction(s.phase) && s.prrDelivered == Sat64(got) && s.prrOut == Sat64(out)
  }

  lemma TallyRound(s: State, r: Round, mss: u32, got: nat, out: nat)
    requires Tallies(s, got, out)
    ensures var t := Play(s, r, mss);
            && Tallies(t, got + r.delivered, out + Total(r.sends))
            && t.ssthresh == s.ssthresh && t.recoverFs == s.recoverFs
  {
    hide SendCount, Total;
    SendAllAdds(Updated(s, r, mss), r.sends);
  }

  lemma ProportionalRound(s: State, r: Round, mss: u32, slack: nat, got: nat, out: nat)
    requires Tallies(s, got, out) && r.pipe > s.ssthresh >= mss
    requires Obeys(Updated(s, r, mss).cwnd, r.pipe, r.sends, slack)
    requires out <= Max(Share(got, s.ssthresh, s.recoverFs), mss) + slack
    ensures out + Total(r.sends) <= Max(Share(got + r.delivered, s.ssthresh, s.recoverFs), mss) + slack
  {
    hide Share, SendCount, Total;
    var t := s.(prrDelivered := Sat64(s.prrDelivered + r.delivered));
    ShareMono(got, got + r.delivered, s.ssthresh, s.recoverFs);
    RoomIsSendCount(s, r, mss);
    ProportionalCount(t, r, mss, got + r.delivered);
  }

  lemma {:induction false} PrrRun(s: State, rs: seq<Round>, mss: u32, slack: nat, got: nat, out: nat)
    requires Tallies(s, got, out) && s.ssthresh >= mss
    requires AllProportional(s.ssthresh, rs) && AllObey(s, rs, mss, slack)
    requires out <= Max(Share(got, s.ssthresh, s.recoverFs), mss) + slack
    ensures out + Sent(rs) <= Max(Share(got + Delivered(rs), s.ssthresh, s.recoverFs), mss) + slack
    decreases |rs|
  {
    hide Share, Play, Updated, Total, Tallies, Obeys;
    if rs != [] {
      var r := rs[0];
      assert r.pipe > s.ssthresh;
      ProportionalRound(s, r, mss, slack, got, out);
      TallyRound(s, r, mss, got, out);
      PrrRun(Play(s, r, mss), rs[1..], mss, slack, got + r.delivered, out + Total(r.sends));
    }
  }

  /** While every update of an episode finds more in flight than `ssthresh`, the
      bytes sent stay within the proportional share of the bytes delivered, or one
      segment; a sender that finishes the segment crossing the window adds at most
      the rest of that one segment over the whole episode. */
  lemma PrrBound(s: State, phase: Phase, flight: u32, nxt: u32, mss: u32, rs: seq<Round>, slack: nat)
    requires InReduction(phase)
    requires var b := BeginReduction(s, phase, flight, nxt, mss);
             AllProportional(b.ssthresh, rs) && AllObey(b, rs, mss, slack)
    ensures Sent(rs) <= Max(Share(Delivered(rs), Halved(flight, mss), Max(flight, 1)), mss) + slack
  {
    hide Share, Delivered, Sent, AllObey, AllProportional;
    PrrRun(BeginReduction(s, phase, flight, nxt, mss), rs, mss, slack, 0, 0);
  }

  /** The sender uses all the room of every update, and nothing saturates. */
  predicate AllUsed(s: State, rs: seq<Round>, mss: u32)
    decreases |rs|
  {
    rs == [] || (Total(rs[0].sends) == Room(Updated(s, rs[0], mss).cwnd, rs[0].pipe)
                 && rs[0].pipe <= HALF && AllUsed(Play(s, rs[0], mss), rs[1..], mss))
  }

  lemma ShareSmall(d: nat, ssthresh: u32, fs: u32)
    requires 0 < Share(d, ssthresh, fs)
    ensures d <= d * ssthresh
  {
    hide CeilDiv;
    if ssthresh > 0 {
      MulMono(1, ssthresh, d);
    } else {
      CeilExact(0, Max(fs, 1));
    }
  }

  lemma ExactRound(s: State, r: Round, mss: u32)
    requires InReduction(s.phase) && HALF >= r.pipe > s.ssthresh >= mss
    requires (s.prrDelivered + r.delivered) * s.ssthresh <= I64_MAX
    requires 0 < Share(s.prrDelivered + r.delivered, s.ssthresh, s.recoverFs) < HALF
    requires s.prrOut <= Share(s.prrDelivered + r.delivered, s.ssthresh, s.recoverFs)
    ensures s.prrOut + Room(Updated(s, r, mss).cwnd, r.pipe)
            == Share(s.prrDelivered + r.delivered, s.ssthresh, s.recoverFs)
  {
    hide CeilDiv;
    ShareSmall(s.prrDelivered + r.delivered, s.ssthresh, s.recoverFs);
  }

  /** A sender that uses the room it is given sends exactly the proportional share:
      the reduction follows the deliveries at the ratio it aims for. */
  lemma {:induction false} PrrTracks(s: State, rs: seq<Round>, mss: u32)
    requires InReduction(s.phase) && s.ssthresh >= mss && rs != []
    requires AllProportional(s.ssthresh, rs) && AllUsed(s, rs, mss)
    requires (s.prrDelivered + Delivered(rs)) * s.ssthresh <= I64_MAX
    requires Share(s.prrDelivered + Delivered(rs), s.ssthresh, s.recoverFs) < HALF
    requires s.prrOut <= Share(s.prrDelivered, s.ssthresh, s.recoverFs)
    requires 0 < Share(s.prrDelivered + rs[0].delivered, s.ssthresh, s.recoverFs)
    ensures s.prrOut + Sent(rs) == Share(s.prrDelivered + Delivered(rs), s.ssthresh, s.recoverFs)
    decreases |rs|
  {
    hide Share, Play, Updated, Total, Room;
    var r := rs[0];
    assert r.pipe > s.ssthresh;
    var got := s.prrDelivered + r.delivered;
    MulMono(got, s.prrDelivered + Delivered(rs), s.ssthresh);
    ShareMono(got, s.prrDelivered + Delivered(rs), s.ssthresh, s.recoverFs);
    ShareSmall(got, s.ssthresh, s.recoverFs);
    ShareMono(s.prrDelivered, got, s.ssthresh, s.recoverFs);
    ExactRound(s, r, mss);
    UsedRound(s, r, mss);
    if |rs| > 1 {
      var t := Play(s, r, mss);
      ShareMono(got, got + rs[1].delivered, s.ssthresh, s.recoverFs);
      PrrTracks(t, rs[1..], mss);
    }
  }

  lemma UsedRound(s: State, r: Round, mss: u32)
    requires InReduction(s.phase) && s.prrDelivered + r.delivered <= U64_MAX
    requires s.prrOut + Total(r.sends) <= U64_MAX
    ensures Play(s, r, mss) == Updated(s, r, mss).(prrOut := s.prrOut + Total(r.sends))
    ensures Updated(s, r, mss) == s.(prrDelivered := s.prrDelivered + r.delivered, cwnd := Updated(s, r, mss).cwnd)
  {
    hide SendCount, Total;
    SendAllAdds(Updated(s, r, mss), r.sends);
  }

  // ---- Either branch -------------------------------------------------------

  /** At or below `ssthresh` the window regrows at most to it; only the segment
      forced out at the start of an episode, or the one-segment floor, may pass it. */
  lemma RegrowthBound(s: State, r: Round, mss: u32)
    requires InReduction(s.phase) && r.pipe <= s.ssthresh
    ensures var w := Updated(s, r, mss).cwnd;
            && Max(r.pipe, mss) <= w <= s.ssthresh + mss
            && (s.prrOut > 0 ==> w <= Max(s.ssthresh, mss))
  {
  }

  /** Extra bytes an update may grant beyond what was delivered: a segment when
      progress is safe, a segment when less than one is in flight. */
  function Extra(r: Round, mss: u32): nat {
    (if r.safe then mss else 0) + (if r.pipe < mss then mss else 0)
  }

  function Extras(rs: seq<Round>, mss: u32): nat {
    if rs == [] then 0 else Extra(rs[0], mss) + Extras(rs[1..], mss)
  }

  lemma RegrowthCount(t: State, r: Round, mss: u32, got: nat, out: nat)
    requires r.pipe <= t.ssthresh && t.prrDelivered <= got && t.prrOut == Sat64(out)
    ensures var n := SendCount(t, r.delivered, r.pipe, mss, r.safe);
            out + n <= Max(got, out + r.delivered) + (if r.safe then mss else 0)
            || (out == 0 && n == mss)
  {
  }

  lemma RoomWithFloor(s: State, r: Round, mss: u32)
    requires InReduction(s.phase)
    ensures var t := s.(prrDelivered := Sat64(s.prrDelivered + r.delivered));
            Room(Updated(s, r, mss).cwnd, r.pipe)
            <= Max(SendCount(t, r.delivered, r.pipe, mss, r.safe), if r.pipe < mss then mss else 0)
  {
    hide SendCount;
  }

  lemma ConservedRound(s: State, r: Round, mss: u32, got: nat, out: nat, extra: nat)
    requires Tallies(s, got, out)
    requires out <= Due(got, s.ssthresh, s.recoverFs) + mss + extra
    ensures out + Room(Updated(s, r, mss).cwnd, r.pipe)
            <= Due(got + r.delivered, s.ssthresh, s.recoverFs) + mss + extra + Extra(r, mss)
  {
    hide SendCount, Share, Room, Updated;
    var t := s.(prrDelivered := Sat64(s.prrDelivered + r.delivered));
    RoomWithFloor(s, r, mss);
    DueGrows(got, r.delivered, s.ssthresh, s.recoverFs);
    if r.pipe > s.ssthresh {
      ProportionalCount(t, r, mss, got + r.delivered);
    } else {
      RegrowthCount(t, r, mss, got + r.delivered, out);
    }
  }

  lemma {:induction false} ConservedRun(s: State, rs: seq<Round>, mss: u32, slack: nat, got: nat, out: nat, extra: nat)
    requires Tallies(s, got, out) && AllObey(s, rs, mss, slack)
    requires out <= Due(got, s.ssthresh, s.recoverFs) + mss + extra
    ensures out + Sent(rs) <= Due(got + Delivered(rs), s.ssthresh, s.recoverFs) + mss + extra
                              + Extras(rs, mss) + slack * |rs|
    decreases |rs|
  {
    hide Play, Updated, Total, Tallies, Extra, Due;
    if rs != [] {
      var r := rs[0];
      ConservedRound(s, r, mss, got, out, extra);
      TallyRound(s, r, mss, got, out);
      ConservedRun(Play(s, r, mss), rs[1..], mss, slack, got + r.delivered, out + Total(r.sends),
                   extra + Extra(r, mss) + slack);
      assert slack * |rs| == slack + slack * |rs[1..]|;
    }
  }

  /** Packet conservation over a whole episode, whichever branch each update takes:
      the bytes sent exceed those the deliveries entitle to by at most one segment,
      plus one for each update that was safe and one for each that found less than a
      segment in flight. From a flight of two segments on, deliveries entitle to no
      more than themselves. */
  lemma EpisodeConserves(s: State, phase: Phase, flight: u32, nxt: u32, mss: u32, rs: seq<Round>, slack: nat)
    requires InReduction(phase)
    requires AllObey(BeginReduction(s, phase, flight, nxt, mss), rs, mss, slack)
    ensures var due := Due(Delivered(rs), Halved(flight, mss), Max(flight, 1));
            && Sent(rs) <= due + mss + Extras(rs, mss) + slack * |rs|
            && (flight >= 2 * mss ==> due == Delivered(rs))
  {
    hide Delivered, Sent, AllObey, Extras, Share;
    ConservedRun(BeginReduction(s, phase, flight, nxt, mss), rs, mss, slack, 0, 0, 0);
    if flight >= 2 * mss {
      ShareAtMostWhole(Delivered(rs), Halved(flight, mss), Max(flight, 1));
    }
  }

  // ---- Growth --------------------------------------------------------------

  /** In slow start only the bytes delivered matter, not how ACKs batch them. */
  lemma SlowStartBatches(s: State, a: u32, b: u32, mss: Mss)
    requires !InReduction(s.phase) && s.cwnd + a + b <= s.ssthresh
    ensures OnAck(OnAck(s, a, mss, true), b, mss, true) == OnAck(s, a + b, mss, true)
    ensures OnAck(s, a + b, mss, true).cwnd == s.cwnd + a + b
  {
    hide Avoid;
  }

  function Acks(s: State, ns: seq<u32>, mss: Mss): State
    decreases |ns|
  {
    if ns == [] then s else Acks(OnAck(s, ns[0], mss, true), ns[1..], mss)
  }

  lemma AvoidGrows(s: State, acked: u32, mss: Mss, w: nat)
    requires w <= Max(s.cwnd, mss)
    ensures var t := Avoid(s, acked, mss);
            (t.cwnd - s.cwnd) * w <= mss * (s.caAcc + acked - t.caAcc)
  {
    var all: int := s.caAcc + acked;
    var acc: int, v: int := Sat32(all), Max(s.cwnd, mss);
    if acc < v {
      NoGrowth(w, mss, all - acc);
    } else {
      WholeGrowth(s.cwnd, acc, v, mss, w, all);
    }
  }

  /** Congestion avoidance loses no delivered byte: each is in the windows already paid
      for with a segment or in the remainder, which is less than a window. */
  lemma AvoidAccounts(s: State, acked: u32, mss: Mss) returns (q: nat)
    requires s.cwnd + (s.caAcc + acked) * mss < MOD && s.caAcc + acked < MOD
    ensures var t, w := Avoid(s, acked, mss), Max(s.cwnd, mss);
            s.caAcc + acked == q * w + t.caAcc && t.caAcc < w && t.cwnd == s.cwnd + q * mss
  {
    var acc: int, w: int := s.caAcc + acked, Max(s.cwnd, mss);
    q := 0;
    if acc >= w {
      q := acc / w;
      Quotient(acc, w, mss);
    }
  }

  lemma Quotient(acc: nat, w: nat, mss: nat)
    requires w > 0
    ensures acc == acc / w * w + acc % w && acc % w < w && acc / w * mss <= acc * mss
  {
    var q := acc / w;
    MulMono(1, w, q);
    MulMono(q, acc, mss);
  }

  lemma NoGrowth(w: nat, mss: nat, x: nat)
    ensures 0 * w <= mss * x
  {
  }

  lemma WholeGrowth(cwnd: u32, acc: u32, v: nat, mss: Mss, w: nat, all: nat)
    requires 0 < v && w <= v && acc <= all
    ensures (Sat32(cwnd + Sat32(acc / v * mss)) - cwnd) * w <= mss * (all - acc % v)
  {
    var q, rest := acc / v, acc % v;
    GrowthStep(cwnd, q, mss);
    GrowthArithmetic(all, v, q, rest, mss, w, Sat32(cwnd + Sat32(q * mss)) - cwnd);
  }

  lemma GrowthStep(cwnd: u32, q: nat, mss: Mss)
    ensures 0 <= Sat32(cwnd + Sat32(q * mss)) - cwnd <= q * mss
  {
  }

  lemma GrowthArithmetic(acc: nat, v: nat, q: nat, rest: nat, mss: nat, w: nat, grown: nat)
    requires q * v + rest <= acc && w <= v && grown <= q * mss
    ensures grown * w <= mss * (acc - rest)
  {
    MulMono(grown, q * mss, w);
    MulMono(w, v, q * mss);
    MulMono(q * v, acc - rest, mss);
    assert v * (q * mss) == (q * v) * mss;
  }

  lemma GrowthAdds(a: int, b: int, c: int, w: int, mss: int, x: int, y: int, z: int)
    requires (b - a) * w <= mss * (x - y) && (c - b) * w <= mss * (y - z)
    ensures (c - a) * w <= mss * (x - z)
  {
    assert (c - a) * w == (c - b) * w + (b - a) * w;
    assert mss * (x - z) == mss * (x - y) + mss * (y - z);
  }

  /** Congestion avoidance adds at most one segment per window delivered, over any
      run of ACKs. */
  lemma {:induction false} AvoidanceBound(s: State, ns: seq<u32>, mss: Mss, w: nat)
    requires !InReduction(s.phase) && s.ssthresh <= s.cwnd && w <= Max(s.cwnd, mss)
    ensures var t := Acks(s, ns, mss);
            (t.cwnd - s.cwnd) * w <= mss * (s.caAcc + Total(ns) - t.caAcc)
    decreases |ns|
  {
    hide Avoid;
    if ns != [] {
      var s1 := OnAck(s, ns[0], mss, true);
      assert (s1.cwnd - s.cwnd) * w <= mss * (s.caAcc + ns[0] - s1.caAcc) by {
        if ns[0] > 0 {
          AvoidGrows(s, ns[0], mss, w);
        }
      }
      AvoidanceBound(s1, ns[1..], mss, w);
      var t := Acks(s, ns, mss);
      GrowthAdds(s.cwnd, s1.cwnd, t.cwnd, w, mss,
                 s.caAcc + Total(ns), s1.caAcc + Total(ns[1..]), t.caAcc);
    }
  }
}
