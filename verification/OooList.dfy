/** The out-of-order list as stored: an array of ranges with 32-bit sequence
    numbers and wrapping recency tags, kept equal to the ranges it stands for. */
module OooList {
  import opened Serial
  import opened Ranges
  import opened Recency

  const I32_MAX: int := 0x7FFF_FFFF

  datatype Entry = Entry(start: u32, end: u32, tag: u32)

  predicate Stands(x: Entry, r: Range) {
    x.start == Wire(r.start) && x.end == Wire(r.end) && x.tag == Wire(r.stamp)
  }

  predicate AllStand(xs: seq<Entry>, rs: seq<Range>) {
    |rs| <= |xs| && forall i :: 0 <= i < |rs| ==> Stands(xs[i], rs[i])
  }

  /** Everything held lies within 2^31 - 1 of `nxt`. */
  predicate Within(rs: seq<Range>, nxt: int) {
    forall i :: 0 <= i < |rs| ==> rs[i].end - nxt <= I32_MAX
  }

  predicate Stamped(rs: seq<Range>, clock: nat) {
    Distinct(rs) && forall i :: 0 <= i < |rs| ==> rs[i].stamp < clock
  }

  /** Offsets from the next expected position, as the list computes them. */
  lemma EntryOffsets(x: Entry, rs: seq<Range>, nxt: int, i: nat)
    requires RangesOk(rs, nxt) && Within(rs, nxt) && i < |rs| && Stands(x, rs[i])
    ensures WSub(x.start, Wire(nxt)) == rs[i].start - nxt
    ensures WSub(x.end, Wire(nxt)) == rs[i].end - nxt
  {
    SerialDistance(rs[i].start, nxt);
    SerialDistance(rs[i].end, nxt);
  }

  lemma StandAt(xs: seq<Entry>, rs: seq<Range>, i: nat)
    requires AllStand(xs, rs) && i < |rs|
    ensures Stands(xs[i], rs[i])
  {
  }

  lemma {:induction false} LowUnique(rs: seq<Range>, s: int, from: nat, i: nat)
    requires from <= i <= |rs|
    requires forall k :: from <= k < i ==> rs[k].end < s
    requires i < |rs| ==> s <= rs[i].end
    ensures LowIndex(rs, s, from) == i
    decreases i - from
  {
    if from < i {
      LowUnique(rs, s, from + 1, i);
    }
  }

  lemma {:induction false} HighUnique(rs: seq<Range>, e: int, from: nat, i: nat)
    requires from <= i <= |rs|
    requires forall k :: from <= k < i ==> rs[k].start <= e
    requires i < |rs| ==> e < rs[i].start
    ensures HighIndex(rs, e, from) == i
    decreases i - from
  {
    if from < i {
      HighUnique(rs, e, from + 1, i);
    }
  }

  class List {
    const max: nat
    const ranges: array<Entry>
    var len: nat
    var nextTag: u32

    ghost var rs: seq<Range>
    ghost var clock: nat

    /** Sorted, disjoint, non-adjacent, all above `nxt`, whatever the wrap of
        sequence numbers and tags. */
    ghost predicate Valid(nxt: int)
      reads this, ranges
    {
      && ranges.Length == max && len == |rs| <= max
      && RangesOk(rs, nxt) && Within(rs, nxt) && Stamped(rs, clock)
      && AllStand(ranges[..], rs) && nextTag == Wire(clock)
    }

    constructor (max: nat, ghost nxt: int)
      ensures Valid(nxt) && fresh(ranges) && rs == [] && clock == 1 && this.max == max
    {
      this.max := max;
      ranges := new Entry[max](_ => Entry(0, 0, 0));
      len, nextTag, rs, clock := 0, 1, [], 1;
    }

    /** Binary search for the first range ending at or after offset `s`. */
    method SearchLow(s: nat, rcvNxt: u32, ghost nxt: int) returns (i: nat)
      requires Valid(nxt) && rcvNxt == Wire(nxt)
      ensures i == LowIndex(rs, nxt + s)
    {
      hide Stands, AllStand, Stamped, Within;
      var hi: nat := len;
      i := 0;
      while i < hi
        invariant i <= hi <= len
        invariant forall k :: 0 <= k < i ==> rs[k].end < nxt + s
        invariant forall k :: hi <= k < len ==> nxt + s <= rs[k].end
      {
        var mid := i + (hi - i) / 2;
        StandAt(ranges[..], rs, mid);
        EntryOffsets(ranges[mid], rs, nxt, mid);
        if WSub(ranges[mid].end, rcvNxt) < s {
          i := mid + 1;
        } else {
          hi := mid;
        }
      }
      LowUnique(rs, nxt + s, 0, i);
    }

    /** Binary search, from `from` on, past the last range starting at or before offset `e`. */
    method SearchHigh(e: u32, from: nat, rcvNxt: u32, ghost nxt: int) returns (i: nat)
      requires Valid(nxt) && rcvNxt == Wire(nxt) && from <= |rs|
      ensures i == HighIndex(rs, nxt + e, from)
    {
      hide Stands, AllStand, Stamped, Within;
      var hi: nat := len;
      i := from;
      while i < hi
        invariant from <= i <= hi <= len
        invariant forall k :: from <= k < i ==> rs[k].start <= nxt + e
        invariant forall k :: hi <= k < len ==> nxt + e < rs[k].start
      {
        var mid := i + (hi - i) / 2;
        StandAt(ranges[..], rs, mid);
        EntryOffsets(ranges[mid], rs, nxt, mid);
        if WSub(ranges[mid].start, rcvNxt) <= e {
          i := mid + 1;
        } else {
          hi := mid;
        }
      }
      HighUnique(rs, nxt + e, from, i);
    }

    /** `insert`: record the range at offsets `s .. e` above `rcvNxt`; a range
        that starts there, or is empty, is answered as a duplicate. */
    method Insert(start: u32, end: u32, rcvNxt: u32, ghost nxt: int) returns (r: Ranges.Insert)
      requires Valid(nxt) && rcvNxt == Wire(nxt)
      requires var s, e := WSub(start, rcvNxt), WSub(end, rcvNxt); s == 0 || e <= s || e <= I32_MAX
      modifies this, ranges
      ensures Valid(nxt)
      ensures var s, e := WSub(start, rcvNxt), WSub(end, rcvNxt);
              if s == 0 || e <= s then r == Stored(true) && rs == old(rs) && clock == old(clock)
              else && r == Outcome(old(rs), nxt + s, nxt + e, max)
                   && rs == Inserted(old(rs), nxt + s, nxt + e, old(clock), max)
                   && clock == old(clock) + 1
    {
      hide RangesOk, Within, Stamped, AllStand, Inserted, Outcome, WSub, Wire;
      var s, e := WSub(start, rcvNxt), WSub(end, rcvNxt);
      if s == 0 || e <= s {
        return Stored(true);
      }
      r := InsertAbove(start, end, s, e, rcvNxt, nxt);
    }

    method InsertAbove(start: u32, end: u32, s: u32, e: u32, rcvNxt: u32, ghost nxt: int)
      returns (r: Ranges.Insert)
      requires Valid(nxt) && rcvNxt == Wire(nxt)
      requires s == WSub(start, rcvNxt) && e == WSub(end, rcvNxt) && 0 < s < e <= I32_MAX
      modifies this, ranges
      ensures Valid(nxt) && clock == old(clock) + 1
      ensures r == Outcome(old(rs), nxt + s, nxt + e, max)
      ensures rs == Inserted(old(rs), nxt + s, nxt + e, old(clock), max)
    {
      hide Stands, AllStand, Stamped, Within, RangesOk, WSub, WAdd, Wire, Merged;
      var lo := SearchLow(s, rcvNxt, nxt);
      var hi := SearchHigh(e, lo, rcvNxt, nxt);
      var tag := nextTag;
      InsertKeeps(rs, nxt, nxt + s, nxt + e, clock, max);
      WireAdd(clock, 1);
      nextTag := WAdd(nextTag, 1);
      clock := clock + 1;
      if hi == lo {
        if len == max {
          return Full;
        }
        NewStands(start, end, tag, nxt, s, e, clock - 1);
        Open(lo, Entry(start, end, tag), Range(nxt + s, nxt + e, clock - 1));
        return Stored(false);
      }
      var dup := Merge(lo, hi, s, e, start, end, tag, rcvNxt, nxt);
      r := Stored(dup);
    }

    /** Merge the new range with the ranges `lo .. hi` it touches. */
    method Merge(lo: nat, hi: nat, s: u32, e: u32, start: u32, end: u32, tag: u32, rcvNxt: u32, ghost nxt: int)
      returns (dup: bool)
      requires ranges.Length == max && len == |rs| <= max && AllStand(ranges[..], rs)
      requires RangesOk(rs, nxt) && Within(rs, nxt) && rcvNxt == Wire(nxt) && clock > 0
      requires lo < hi <= len && s == WSub(start, rcvNxt) && e == WSub(end, rcvNxt) && tag == Wire(clock - 1)
      modifies this`len, this`rs, ranges
      ensures len == |rs| <= max && AllStand(ranges[..], rs)
      ensures rs == old(rs)[..lo] + [Merged(old(rs), lo, hi, nxt + s, nxt + e, clock - 1)] + old(rs)[hi..]
      ensures dup == (hi - lo == 1 && old(rs)[lo].start <= nxt + s && nxt + e <= old(rs)[lo].end)
    {
      hide Stands, AllStand, Within, RangesOk, Merged;
      var first, last := ranges[lo], ranges[hi - 1];
      StandAt(ranges[..], rs, lo);
      StandAt(ranges[..], rs, hi - 1);
      EntryOffsets(first, rs, nxt, lo);
      EntryOffsets(last, rs, nxt, hi - 1);
      dup := hi - lo == 1 && WSub(first.start, rcvNxt) <= s && e <= WSub(first.end, rcvNxt);
      var mStart := if WSub(first.start, rcvNxt) < s then first.start else start;
      var mEnd := if WSub(last.end, rcvNxt) > e then last.end else end;
      NewStands(start, end, tag, nxt, s, e, clock - 1);
      MergedStands(first, last, rs, lo, hi, start, end, mStart, mEnd, tag, nxt + s, nxt + e, clock - 1);
      Close(lo, hi, Entry(mStart, mEnd, tag), Merged(rs, lo, hi, nxt + s, nxt + e, clock - 1));
    }

    /** Open slot `lo`, rotating what lies there and above up one. */
    method Open(lo: nat, x: Entry, ghost r: Range)
      requires ranges.Length == max && len == |rs| < max && AllStand(ranges[..], rs) && Stands(x, r)
      requires lo <= len
      modifies this`len, this`rs, ranges
      ensures len == |rs| <= max && AllStand(ranges[..], rs)
      ensures rs == old(rs)[..lo] + [r] + old(rs)[lo..]
    {
      hide Stands, AllStand;
      ghost var was := ranges[..];
      forall k | lo < k <= len {
        ranges[k] := ranges[k - 1];
      }
      ranges[lo] := x;
      OpenStands(was, ranges[..], rs, lo, x, r);
      len := len + 1;
      rs := rs[..lo] + [r] + rs[lo..];
    }

    /** Replace entries `lo .. hi` by one, rotating what lies above down. */
    method Close(lo: nat, hi: nat, x: Entry, ghost r: Range)
      requires ranges.Length == max && len == |rs| <= max && AllStand(ranges[..], rs) && Stands(x, r)
      requires lo < hi <= len
      modifies this`len, this`rs, ranges
      ensures len == |rs| <= max && AllStand(ranges[..], rs)
      ensures rs == old(rs)[..lo] + [r] + old(rs)[hi..]
    {
      hide Stands, AllStand;
      ghost var was := ranges[..];
      var removed := hi - lo - 1;
      forall k | lo < k < len - removed {
        ranges[k] := ranges[k + removed];
      }
      ranges[lo] := x;
      CloseStands(was, ranges[..], rs, lo, hi, x, r);
      len := len - removed;
      rs := rs[..lo] + [r] + rs[hi..];
    }

    /** `advance`: `RCV.NXT` moved up to `to`; absorb what it now reaches. */
    method Advance(rcvNxt: u32, ghost base: int, ghost to: int) returns (r: u32)
      requires Valid(base) && base <= to <= base + I32_MAX && rcvNxt == Wire(to)
      modifies this, ranges
      ensures var a := Advanced(old(rs), to);
              Valid(a.nxt) && rs == a.ranges && r == Wire(a.nxt) && a.nxt <= base + I32_MAX
      ensures clock == old(clock)
    {
      hide Stamped, Within, RangesOk, AllStand;
      AdvanceKeeps(rs, base, to, clock);
      var drop: nat;
      drop, r := Reach(rcvNxt, base, to);
      DropFirst(drop);
    }

    /** How many ranges `to` reaches, each from where the last one ends. */
    method Reach(rcvNxt: u32, ghost base: int, ghost to: int) returns (drop: nat, r: u32)
      requires Valid(base) && base <= to <= base + I32_MAX && rcvNxt == Wire(to)
      ensures drop <= len && Advanced(rs, to).ranges == rs[drop..] && r == Wire(Advanced(rs, to).nxt)
      ensures Advanced(rs, to).nxt <= base + I32_MAX
    {
      hide Stamped;
      ghost var at := to;
      drop, r := 0, rcvNxt;
      assert rs[0..] == rs;
      while drop < len
        invariant drop <= len && r == Wire(at) && base <= at <= base + I32_MAX
        invariant Advanced(rs[drop..], at) == Advanced(rs, to)
      {
        StandAt(ranges[..], rs, drop);
        SerialOrder(rs[drop].start, at);
        SerialOrder(rs[drop].end, at);
        assert rs[drop..][1..] == rs[drop + 1..];
        if !SeqLe(ranges[drop].start, r) {
          return;
        }
        if SeqGt(ranges[drop].end, r) {
          r, at := ranges[drop].end, rs[drop].end;
        }
        drop := drop + 1;
      }
    }

    /** `truncate_from`: forget everything held at or beyond `limit`. */
    method TruncateFrom(limit: u32, rcvNxt: u32, ghost nxt: int)
      requires Valid(nxt) && rcvNxt == Wire(nxt)
      modifies this, ranges
      ensures Valid(nxt) && rs == Truncated(old(rs), nxt + WSub(limit, rcvNxt)) && clock == old(clock)
    {
      hide Stands, Stamped, Within, RangesOk, Truncated, WSub, Wire;
      var lim: int := WSub(limit, rcvNxt);
      var k := SearchLow(lim + 1, rcvNxt, nxt);
      ghost var at := nxt + lim;
      TruncateAt(rs, nxt, at, k);
      TruncateKeeps(rs, nxt, at, clock);
      if k < len {
        StandAt(ranges[..], rs, k);
        EntryOffsets(ranges[k], rs, nxt, k);
        TrimmedStands(ranges[k], rs[k], limit, nxt);
      }
      if k < len && WSub(ranges[k].start, rcvNxt) < lim {
        ranges[k] := ranges[k].(end := limit);
        len, rs := k + 1, rs[..k] + [rs[k].(end := at)];
      } else {
        len, rs := k, rs[..k];
      }
    }

    /** `fill_sack_blocks`: append the ranges of least measured age, least first, at
        most `limit` of them and four blocks in all. */
    method FillSackBlocks(sack: seq<(u32, u32)>, limit: nat, ghost nxt: int) returns (out: seq<(u32, u32)>)
      requires Valid(nxt) && |sack| <= 4
      ensures out == PushAll(sack, Reported(rs, clock, Min(limit, 4)))
    {
      hide Stands, RangesOk, Within, Distinct, Selected, Bubble, WSub, Wire;
      var k := Min(limit, 4);
      var top: seq<Entry> := [];
      ghost var all := Measured(rs, clock);
      ghost var young: seq<Range> := [];
      assert Selected(all[..0], k) == [];
      for i := 0 to len
        invariant young == Selected(all[..i], k) && |young| <= k
        invariant AllShow(top, young, nextTag)
      {
        StandAt(ranges[..], rs, i);
        StandsShows(ranges[i], rs[i], nextTag, clock);
        SelectedNext(all, i, k);
        top, young := Bubbled(top, young, ranges[i], all[i], k);
      }
      assert all[..len] == all;
      out := Push4(sack, top, young, nextTag);
    }

    /** The inner swap loop. */
    method Bubbled(top0: seq<Entry>, ghost young0: seq<Range>, x: Entry, ghost r: Range, k: nat)
      returns (top: seq<Entry>, ghost young: seq<Range>)
      requires |young0| <= k && AllShow(top0, young0, nextTag) && Shows(x, r, nextTag)
      ensures young == Bubble(young0, r, 0, k) && |young| <= k && AllShow(top, young, nextTag)
    {
      hide WSub;
      var cand, j := x, 0;
      ghost var c := r;
      top, young := top0, young0;
      while j < k
        invariant j <= |young| <= k && AllShow(top, young, nextTag) && Shows(cand, c, nextTag)
        invariant Bubble(young, c, j, k) == Bubble(young0, r, 0, k)
      {
        if j == |top| {
          top, young := top + [cand], young + [c];
          return;
        }
        if WSub(nextTag, cand.tag) < WSub(nextTag, top[j].tag) {
          top, cand := top[j := cand], top[j];
          young, c := young[j := c], young[j];
        }
        j := j + 1;
      }
    }

    /** Rotate the first `drop` entries away. */
    method DropFirst(drop: nat)
      requires ranges.Length == max && drop <= len == |rs| <= max && AllStand(ranges[..], rs)
      modifies this`len, this`rs, ranges
      ensures len == |rs| <= max && AllStand(ranges[..], rs) && rs == old(rs)[drop..]
    {
      forall k | 0 <= k < len - drop {
        ranges[k] := ranges[k + drop];
      }
      len := len - drop;
      rs := rs[drop..];
    }
  }

  lemma OpenStands(was: seq<Entry>, now: seq<Entry>, rs: seq<Range>, lo: nat, x: Entry, r: Range)
    requires |now| == |was| && lo <= |rs| < |was| && AllStand(was, rs) && Stands(x, r)
    requires now[lo] == x
    requires forall k :: 0 <= k < lo ==> now[k] == was[k]
    requires forall k :: lo < k <= |rs| ==> now[k] == was[k - 1]
    ensures AllStand(now, rs[..lo] + [r] + rs[lo..])
  {
    hide Stands;
    var to := rs[..lo] + [r] + rs[lo..];
    forall k | 0 <= k < |to|
      ensures Stands(now[k], to[k])
    {
      if lo < k {
        assert to[k] == rs[k - 1] && Stands(was[k - 1], rs[k - 1]);
      }
    }
  }

  lemma CloseStands(was: seq<Entry>, now: seq<Entry>, rs: seq<Range>, lo: nat, hi: nat, x: Entry, r: Range)
    requires |now| == |was| && lo < hi <= |rs| <= |was| && AllStand(was, rs) && Stands(x, r)
    requires now[lo] == x
    requires forall k :: 0 <= k < lo ==> now[k] == was[k]
    requires forall k :: lo < k < |rs| - (hi - lo - 1) ==> now[k] == was[k + (hi - lo - 1)]
    ensures AllStand(now, rs[..lo] + [r] + rs[hi..])
  {
    hide Stands;
    var to := rs[..lo] + [r] + rs[hi..];
    forall k | 0 <= k < |to|
      ensures Stands(now[k], to[k])
    {
      if lo < k {
        var j := k + (hi - lo - 1);
        assert to[k] == rs[j] && Stands(was[j], rs[j]);
      }
    }
  }

  lemma InsertKeeps(rs: seq<Range>, nxt: int, s: int, e: int, clock: nat, max: nat)
    requires RangesOk(rs, nxt) && Within(rs, nxt) && Stamped(rs, clock)
    requires nxt < s < e && e - nxt <= I32_MAX && |rs| <= max
    ensures var r := Inserted(rs, s, e, clock, max);
            RangesOk(r, nxt) && Within(r, nxt) && Stamped(r, clock + 1) && |r| <= max
  {
    InsertOk(rs, nxt, s, e, clock, max);
    InsertBound(rs, s, e, clock, max, nxt + I32_MAX);
    InsertStamps(rs, s, e, clock, max);
  }

  // ---- Truncation ----------------------------------------------------------

  lemma {:induction false} TruncateAt(rs: seq<Range>, nxt: int, lim: int, k: nat)
    requires RangesOk(rs, nxt) && k == LowIndex(rs, lim + 1)
    ensures Truncated(rs, lim) ==
            if k < |rs| && rs[k].start < lim then rs[..k] + [rs[k].(end := lim)] else rs[..k]
    decreases |rs|
  {
    hide RangesOk;
    if rs == [] || lim < rs[0].end {
      LowUnique(rs, lim + 1, 0, 0);
    } else {
      var rest := rs[1..];
      RestOk(rs, nxt);
      assert k > 0;
      LowUnique(rest, lim + 1, 0, k - 1);
      TruncateAt(rest, nxt, lim, k - 1);
      assert rs[..k] == [rs[0]] + rest[..k - 1];
      assert Truncated(rs, lim) == [rs[0]] + Truncated(rest, lim);
    }
  }

  lemma TruncateKeeps(rs: seq<Range>, nxt: int, lim: int, clock: nat)
    requires RangesOk(rs, nxt) && Within(rs, nxt) && Stamped(rs, clock)
    ensures var t := Truncated(rs, lim);
            RangesOk(t, nxt) && Within(t, nxt) && Stamped(t, clock) && |t| <= |rs|
  {
    TruncateOk(rs, nxt, lim);
    TruncateAt(rs, nxt, lim, LowIndex(rs, lim + 1));
  }

  lemma TrimmedStands(x: Entry, r: Range, limit: u32, nxt: int)
    requires Stands(x, r)
    ensures Stands(x.(end := limit), r.(end := nxt + WSub(limit, Wire(nxt))))
  {
  }

  // ---- SACK blocks ---------------------------------------------------------

  /** `x` is the range `r`, stamped by the age `x.tag` shows. */
  predicate Shows(x: Entry, r: Range, nextTag: u32) {
    x.start == Wire(r.start) && x.end == Wire(r.end) && WSub(nextTag, x.tag) == MOD - r.stamp
  }

  predicate AllShow(xs: seq<Entry>, rs: seq<Range>, nextTag: u32) {
    |xs| == |rs| && forall i :: 0 <= i < |xs| ==> Shows(xs[i], rs[i], nextTag)
  }

  lemma StandsShows(x: Entry, r: Range, nextTag: u32, clock: nat)
    requires Stands(x, r) && nextTag == Wire(clock)
    ensures Shows(x, AsMeasured(r, clock), nextTag)
  {
    assert WSub(Wire(clock), Wire(r.stamp)) == (clock - r.stamp) % MOD;
  }

  lemma SelectedNext(all: seq<Range>, i: nat, k: nat)
    requires i < |all|
    ensures Selected(all[..i + 1], k) == Bubble(Selected(all[..i], k), all[i], 0, k)
  {
    assert all[..i + 1][..i] == all[..i];
  }

  /** Append a block; a fifth is dropped silently. */
  function PushBlock(sack: seq<(u32, u32)>, x: (int, int)): seq<(u32, u32)> {
    if |sack| < 4 then sack + [(Wire(x.0), Wire(x.1))] else sack
  }

  function PushAll(sack: seq<(u32, u32)>, xs: seq<(int, int)>): seq<(u32, u32)>
    decreases |xs|
  {
    if xs == [] then sack else PushAll(PushBlock(sack, xs[0]), xs[1..])
  }

  /** What is appended, in order, is the first of `xs` there is room for. */
  lemma {:induction false} PushedBlocks(sack: seq<(u32, u32)>, xs: seq<(int, int)>, i: nat)
    requires |sack| <= 4
    ensures sack <= PushAll(sack, xs) && |PushAll(sack, xs)| == Min(4, |sack| + |xs|)
    ensures i < |xs| && |sack| + i < 4 ==> PushAll(sack, xs)[|sack| + i] == (Wire(xs[i].0), Wire(xs[i].1))
    decreases |xs|
  {
    if xs != [] {
      PushedBlocks(PushBlock(sack, xs[0]), xs[1..], if i > 0 then i - 1 else 0);
    }
  }

  method Push4(sack: seq<(u32, u32)>, top: seq<Entry>, ghost young: seq<Range>, ghost nextTag: u32)
    returns (out: seq<(u32, u32)>)
    requires AllShow(top, young, nextTag)
    ensures out == PushAll(sack, Extents(young))
  {
    hide Wire, WSub;
    out := sack;
    ghost var xs := Extents(young);
    assert xs[0..] == xs;
    for i := 0 to |top|
      invariant PushAll(out, xs[i..]) == PushAll(sack, xs)
    {
      assert xs[i..][1..] == xs[i + 1..] && Shows(top[i], young[i], nextTag);
      if |out| < 4 {
        out := out + [(top[i].start, top[i].end)];
      }
    }
  }

  lemma AdvanceKeeps(rs: seq<Range>, base: int, to: int, clock: nat)
    requires RangesOk(rs, base) && Within(rs, base) && Stamped(rs, clock) && base <= to
    ensures var a := Advanced(rs, to);
            RangesOk(a.ranges, a.nxt) && Within(a.ranges, a.nxt) && Stamped(a.ranges, clock)
  {
    AdvanceOk(rs, base, to);
    AdvanceSuffix(rs, to);
  }

  lemma {:induction false} AdvanceSuffix(rs: seq<Range>, to: int)
    ensures var a := Advanced(rs, to).ranges;
            |a| <= |rs| && a == rs[|rs| - |a|..]
    decreases |rs|
  {
    if rs == [] || to < rs[0].start {
    } else {
      AdvanceSuffix(rs[1..], Max(to, rs[0].end));
    }
  }

  lemma NewStands(start: u32, end: u32, tag: u32, nxt: int, s: u32, e: u32, stamp: nat)
    requires s == WSub(start, Wire(nxt)) && e == WSub(end, Wire(nxt)) && tag == Wire(stamp)
    ensures Stands(Entry(start, end, tag), Range(nxt + s, nxt + e, stamp))
  {
  }

  lemma MergedStands(first: Entry, last: Entry, rs: seq<Range>, lo: nat, hi: nat, start: u32, end: u32,
                     mStart: u32, mEnd: u32, tag: u32, s: int, e: int, stamp: nat)
    requires lo < hi <= |rs| && Stands(first, rs[lo]) && Stands(last, rs[hi - 1])
    requires Stands(Entry(start, end, tag), Range(s, e, stamp))
    requires mStart == if rs[lo].start < s then first.start else start
    requires mEnd == if rs[hi - 1].end > e then last.end else end
    ensures Stands(Entry(mStart, mEnd, tag), Merged(rs, lo, hi, s, e, stamp))
  {
  }
}
