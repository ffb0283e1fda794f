/** Where Proportional Rate Reduction leads: with a sender that uses the room it is
    given and nothing more lost, the data in flight comes to the threshold. */
module PrrTargets {
  import opened Serial
  import opened Reno
  import opened PrrBounds

  // ---- At or below the threshold -------------------------------------------

  /** The extra segment of a safe update. */
  function Bonus(r: Round, mss: u32): nat {
    if r.safe then mss else 0
  }

  /** The counters hold the true totals, and none of them is near its limit. */
  predicate Exact(s: State, r: Round, mss: u32, got: nat, out: nat) {
    && Tallies(s, got, out) && got + r.delivered <= I64_MAX && out <= I64_MAX
    && s.ssthresh + mss < MOD
  }

  /** At or below the threshold, what was delivered and not yet made up for may go out,
      and at least what this ACK delivered, up to the threshold. */
  lemma RegrowthExact(s: State, r: Round, mss: u32, got: nat, out: nat)
    requires Exact(s, r, mss, got, out) && r.pipe <= s.ssthresh
    ensures var room := Room(Updated(s, r, mss).cwnd, r.pipe);
            var all := got + r.delivered;
            && out + room >= Min(all + Bonus(r, mss), out + s.ssthresh - r.pipe)
            && room >= Min(r.delivered + Bonus(r, mss), s.ssthresh - r.pipe)
            && var n := Min(Max(all - out, r.delivered) + Bonus(r, mss), s.ssthresh - r.pipe);
               out > 0 || n > 0 ==> r.pipe + room == Max(r.pipe + n, mss)
  {
  }

  lemma CeilAtMost(n: nat, d: nat)
    requires d > 0
    ensures CeilDiv(n, d) <= n
  {
    hide CeilDiv;
    MulMono(1, d, n);
    CeilMono(n, n * d, d);
    CeilExact(n, d);
  }

  /** Above the threshold, at least the share of what was delivered may go out. */
  lemma ShareGoesOut(s: State, r: Round, mss: u32, got: nat, out: nat)
    requires Tallies(s, got, out) && r.pipe > s.ssthresh
    requires got + r.delivered <= I64_MAX && (got + r.delivered) * s.ssthresh <= I64_MAX && out <= I64_MAX
    ensures var w := Updated(s, r, mss).cwnd;
            w == U32_MAX || out + Room(w, r.pipe) >= Share(got + r.delivered, s.ssthresh, s.recoverFs)
  {
    hide CeilDiv;
    CeilAtMost((got + r.delivered) * s.ssthresh, Max(s.recoverFs, 1));
  }

  // ---- Rounds without further loss -----------------------------------------

  /** Each update finds in flight what was left there less what was delivered, and
      the sender then uses the room it is given. */
  predicate Lossless(s: State, f: nat, rs: seq<Round>, mss: u32)
    decreases |rs|
  {
    rs == [] ||
    (var r := rs[0];
     && r.pipe == f - r.delivered
     && Total(r.sends) == Room(Updated(s, r, mss).cwnd, r.pipe)
     && Lossless(Play(s, r, mss), r.pipe + Total(r.sends), rs[1..], mss))
  }

  /** In flight after the last round. */
  function InFlight(f: nat, rs: seq<Round>): nat
    decreases |rs|
  {
    if rs == [] then f else InFlight(rs[0].pipe + Total(rs[0].sends), rs[1..])
  }

  /** The extra segments of all safe updates. */
  function Bonuses(rs: seq<Round>, mss: u32): nat {
    if rs == [] then 0 else Bonus(rs[0], mss) + Bonuses(rs[1..], mss)
  }

  lemma RegrowthRound(s: State, r: Round, mss: u32, f: nat, got: nat, out: nat)
    requires Exact(s, r, mss, got, out) && out > 0 && mss <= s.ssthresh && f <= s.ssthresh
    requires r.pipe == f - r.delivered
    ensures var w := r.pipe + Room(Updated(s, r, mss).cwnd, r.pipe);
            Min(f + Bonus(r, mss), s.ssthresh) <= w <= s.ssthresh
  {
    hide SendCount, Updated;
    RegrowthExact(s, r, mss, got, out);
    RegrowthBound(s, r, mss);
  }

  /** Once at or below the threshold, the flight never shrinks and never passes it, and
      every safe update brings it a segment closer, so enough of them bring it there. */
  lemma {:induction false} FlightRegrows(s: State, f: nat, rs: seq<Round>, mss: u32, got: nat, out: nat)
    requires Tallies(s, got, out) && Lossless(s, f, rs, mss)
    requires got + Delivered(rs) <= I64_MAX && out + Sent(rs) <= I64_MAX && s.ssthresh + mss < MOD
    requires out > 0 && mss <= s.ssthresh && f <= s.ssthresh
    ensures Min(f + Bonuses(rs, mss), s.ssthresh) <= InFlight(f, rs) <= s.ssthresh
    decreases |rs|
  {
    hide Updated, Play, Total, Room, Tallies, Bonus;
    if rs != [] {
      var r := rs[0];
      RegrowthRound(s, r, mss, f, got, out);
      TallyRound(s, r, mss, got, out);
      var w := r.pipe + Total(r.sends);
      FlightRegrows(Play(s, r, mss), w, rs[1..], mss, got + r.delivered, out + Total(r.sends));
    }
  }

  // ---- A whole reduction without further loss ------------------------------

  /** In flight is what was at the start, less what was delivered, plus what was sent;
      no less than the threshold, and more only while the share is not exceeded. */
  predicate Descending(s: State, f: nat, mss: u32, got: nat, out: nat) {
    && Tallies(s, got, out) && f == s.recoverFs - got + out && f >= s.ssthresh
    && (f == s.ssthresh || out <= Max(Share(got, s.ssthresh, s.recoverFs), mss))
  }

  /** A reduction from a flight the threshold and a segment's size fit in. */
  predicate Sized(s: State, mss: u32) {
    0 < mss <= s.ssthresh <= s.recoverFs && s.recoverFs + mss < MOD
  }

  /** Past the flight the reduction began with, the share is the threshold and no more
      than what was delivered beyond. */
  lemma ShareBeyond(got: nat, ssthresh: u32, fs: u32)
    requires 0 < ssthresh <= fs <= got
    ensures Share(got, ssthresh, fs) <= ssthresh + got - fs
  {
    hide CeilDiv;
    var x := got - fs;
    assert got * ssthresh == x * ssthresh + ssthresh * fs;
    CeilShift(x * ssthresh, ssthresh, fs);
    ShareAtMostWhole(x, ssthresh, fs);
  }

  lemma SentSoFar(s: State, f: nat, mss: u32, got: nat, out: nat)
    requires Descending(s, f, mss, got, out) && Sized(s, mss)
    ensures out <= Max(got, mss)
  {
    hide Share;
    ShareAtMostWhole(got, s.ssthresh, s.recoverFs);
  }

  lemma ShareIsCount(t: State, r: Round, mss: u32)
    requires r.pipe > t.ssthresh && t.prrDelivered * t.ssthresh <= I64_MAX && t.prrOut <= I64_MAX
    requires 0 < t.ssthresh <= t.recoverFs
    ensures var n := Share(t.prrDelivered, t.ssthresh, t.recoverFs) - t.prrOut;
            SendCount(t, r.delivered, r.pipe, mss, r.safe)
            == if n > 0 then n else if t.prrOut == 0 then mss else 0
  {
    hide CeilDiv;
    ShareAtMostWhole(t.prrDelivered, t.ssthresh, t.recoverFs);
    MulMono(1, t.ssthresh, t.prrDelivered);
  }

  lemma RoomAbove(s: State, r: Round, mss: u32, n: nat)
    requires InReduction(s.phase) && r.pipe >= mss && r.pipe + n < MOD
    requires n == SendCount(s.(prrDelivered := Sat64(s.prrDelivered + r.delivered)), r.delivered, r.pipe, mss, r.safe)
    ensures Room(Updated(s, r, mss).cwnd, r.pipe) == n
  {
    hide SendCount;
  }

  lemma CountAbove(s: State, r: Round, mss: u32, got: nat, out: nat)
    requires Tallies(s, got, out) && Sized(s, mss) && (got + r.delivered) * s.ssthresh <= I64_MAX
    requires r.pipe > s.ssthresh && out <= I64_MAX
    ensures var t, n := s.(prrDelivered := Sat64(s.prrDelivered + r.delivered)),
                        Share(got + r.delivered, s.ssthresh, s.recoverFs) - out;
            SendCount(t, r.delivered, r.pipe, mss, r.safe) == if n > 0 then n else if out == 0 then mss else 0
  {
    hide Share, SendCount;
    var t := s.(prrDelivered := Sat64(s.prrDelivered + r.delivered));
    Bounded(got + r.delivered, s.ssthresh);
    ShareIsCount(t, r, mss);
  }

  /** Above the threshold the flight follows the share, and cannot be there once the
      whole starting flight is delivered. */
  lemma DescendAbove(s: State, r: Round, mss: u32, f: nat, got: nat, out: nat)
    requires Descending(s, f, mss, got, out) && Sized(s, mss) && (got + r.delivered) * s.ssthresh <= I64_MAX
    requires r.pipe == f - r.delivered && r.pipe > s.ssthresh
    ensures var room := Room(Updated(s, r, mss).cwnd, r.pipe);
            && out + room <= Max(Share(got + r.delivered, s.ssthresh, s.recoverFs), mss)
            && got + r.delivered < s.recoverFs
  {
    hide Share, SendCount, Updated, Room, Sat64;
    var all := got + r.delivered;
    var t := s.(prrDelivered := Sat64(s.prrDelivered + r.delivered));
    SentSoFar(s, f, mss, got, out);
    Bounded(all, s.ssthresh);
    CountAbove(s, r, mss, got, out);
    ShareMono(got, all, s.ssthresh, s.recoverFs);
    ShareAtMostWhole(all, s.ssthresh, s.recoverFs);
    RoomAbove(s, r, mss, SendCount(t, r.delivered, r.pipe, mss, r.safe));
    if all >= s.recoverFs {
      ShareBeyond(all, s.ssthresh, s.recoverFs);
    }
  }

  lemma Bounded(got: nat, ssthresh: u32)
    requires ssthresh > 0 && got * ssthresh <= I64_MAX
    ensures got <= I64_MAX
  {
    MulMono(1, ssthresh, got);
  }

  /** At or below it, the flight is brought to it at once; only the segment forced out
      first may pass it. */
  lemma DescendBelow(s: State, r: Round, mss: u32, f: nat, got: nat, out: nat)
    requires Descending(s, f, mss, got, out) && Sized(s, mss) && (got + r.delivered) * s.ssthresh <= I64_MAX
    requires r.pipe == f - r.delivered && r.pipe <= s.ssthresh
    ensures var room := Room(Updated(s, r, mss).cwnd, r.pipe);
            || r.pipe + room == s.ssthresh
            || (r.pipe == s.ssthresh && out == 0 && room == mss)
  {
    hide Share, SendCount, Updated;
    Bounded(got + r.delivered, s.ssthresh);
    SentSoFar(s, f, mss, got, out);
    RegrowthExact(s, r, mss, got, out);
    if out == 0 && r.pipe == s.ssthresh {
      ForcedOut(s, r, mss);
    }
  }

  lemma ForcedOut(s: State, r: Round, mss: u32)
    requires InReduction(s.phase) && s.prrOut == 0 && 0 < mss <= r.pipe && r.pipe == s.ssthresh && r.pipe + mss < MOD
    ensures Room(Updated(s, r, mss).cwnd, r.pipe) == mss
  {
  }

  lemma DescendRound(s: State, r: Round, mss: u32, f: nat, got: nat, out: nat)
    requires Descending(s, f, mss, got, out) && Sized(s, mss) && (got + r.delivered) * s.ssthresh <= I64_MAX
    requires r.pipe == f - r.delivered && Total(r.sends) == Room(Updated(s, r, mss).cwnd, r.pipe)
    ensures var t, w := Play(s, r, mss), r.pipe + Total(r.sends);
            && Descending(t, w, mss, got + r.delivered, out + Total(r.sends)) && Sized(t, mss)
            && t.ssthresh == s.ssthresh && t.recoverFs == s.recoverFs
            && (got + r.delivered >= s.recoverFs ==> w == s.ssthresh)
  {
    hide Share, SendCount, Updated, Play, Total, Room, Tallies;
    TallyRound(s, r, mss, got, out);
    if r.pipe > s.ssthresh {
      DescendAbove(s, r, mss, f, got, out);
    } else {
      DescendBelow(s, r, mss, f, got, out);
    }
  }

  lemma {:induction false} DescendRun(s: State, rs: seq<Round>, mss: u32, f: nat, got: nat, out: nat)
    requires Descending(s, f, mss, got, out) && Sized(s, mss) && Lossless(s, f, rs, mss)
    requires (got + Delivered(rs)) * s.ssthresh <= I64_MAX
    requires got >= s.recoverFs ==> f == s.ssthresh
    ensures InFlight(f, rs) >= s.ssthresh
    ensures got + Delivered(rs) >= s.recoverFs ==> InFlight(f, rs) == s.ssthresh
    decreases |rs|
  {
    hide Share, Updated, Play, Total, Room, Tallies;
    if rs != [] {
      var r := rs[0];
      MulMono(got + r.delivered, got + Delivered(rs), s.ssthresh);
      DescendRound(s, r, mss, f, got, out);
      DescendRun(Play(s, r, mss), rs[1..], mss, r.pipe + Total(r.sends), got + r.delivered, out + Total(r.sends));
    }
  }

  /** A reduction of a flight of at least two segments, none of it lost: what is in
      flight never falls below half the starting flight, and from the moment all of
      that flight is delivered it is exactly half. */
  lemma ReductionLands(s: State, phase: Phase, flight: u32, nxt: u32, mss: u32, rs: seq<Round>)
    requires InReduction(phase) && 0 < 2 * mss <= flight && flight + mss < MOD
    requires Lossless(BeginReduction(s, phase, flight, nxt, mss), flight, rs, mss)
    requires Delivered(rs) * Halved(flight, mss) <= I64_MAX
    ensures InFlight(flight, rs) >= Halved(flight, mss)
    ensures Delivered(rs) >= flight ==> InFlight(flight, rs) == Halved(flight, mss)
  {
    hide Share, Lossless, Delivered, InFlight;
    DescendRun(BeginReduction(s, phase, flight, nxt, mss), rs, mss, flight, 0, 0);
  }
}
