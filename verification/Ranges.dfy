/** The set of stream positions held out of order, as a sorted list of disjoint,
    non-adjacent ranges above the next expected position. */
module Ranges {
  import opened Serial

  /** Positions `start .. end`, last changed by insertion number `stamp`. */
  datatype Range = Range(start: int, end: int, stamp: nat)

  /** Sorted, disjoint, non-adjacent, all strictly above `nxt`. */
  predicate RangesOk(rs: seq<Range>, nxt: int) {
    && (forall i :: 0 <= i < |rs| ==> nxt < rs[i].start < rs[i].end)
    && (forall i, j :: 0 <= i < j < |rs| ==> rs[i].end < rs[j].start)
  }

  predicate Contains(r: Range, p: int) {
    r.start <= p < r.end
  }

  ghost predicate Held(rs: seq<Range>, p: int) {
    exists i :: 0 <= i < |rs| && Contains(rs[i], p)
  }

  lemma HeldAppend(a: seq<Range>, b: seq<Range>, p: int)
    ensures Held(a + b, p) <==> Held(a, p) || Held(b, p)
  {
    var c := a + b;
    if Held(a, p) {
      var i :| 0 <= i < |a| && Contains(a[i], p);
      assert c[i] == a[i];
    }
    if Held(b, p) {
      var i :| 0 <= i < |b| && Contains(b[i], p);
      assert c[|a| + i] == b[i];
    }
  }

  // ---- Insertion -----------------------------------------------------------

  /** Outcome of an insertion. */
  datatype Insert = Stored(dup: bool) | Full

  /** First range ending at or after `s`. */
  function LowIndex(rs: seq<Range>, s: int, from: nat := 0): (i: nat)
    requires from <= |rs|
    ensures from <= i <= |rs|
    ensures forall k :: from <= k < i ==> rs[k].end < s
    ensures i < |rs| ==> s <= rs[i].end
    decreases |rs| - from
  {
    if from == |rs| || s <= rs[from].end then from else LowIndex(rs, s, from + 1)
  }

  /** One past the last range, from `from` on, that starts at or before `e`. */
  function HighIndex(rs: seq<Range>, e: int, from: nat): (i: nat)
    requires from <= |rs|
    ensures from <= i <= |rs|
    ensures forall k :: from <= k < i ==> rs[k].start <= e
    ensures i < |rs| ==> e < rs[i].start
    decreases |rs| - from
  {
    if from == |rs| || e < rs[from].start then from else HighIndex(rs, e, from + 1)
  }

  /** The range that `s .. e` and the ranges `lo .. hi` it touches merge into. */
  function Merged(rs: seq<Range>, lo: nat, hi: nat, s: int, e: int, stamp: nat): Range
    requires lo < hi <= |rs|
  {
    Range(Min(rs[lo].start, s), Max(rs[hi - 1].end, e), stamp)
  }

  function Inserted(rs: seq<Range>, s: int, e: int, stamp: nat, max: nat): seq<Range> {
    var lo := LowIndex(rs, s);
    var hi := HighIndex(rs, e, lo);
    if lo < hi then rs[..lo] + [Merged(rs, lo, hi, s, e, stamp)] + rs[hi..]
    else if |rs| >= max then rs
    else rs[..lo] + [Range(s, e, stamp)] + rs[lo..]
  }

  function Outcome(rs: seq<Range>, s: int, e: int, max: nat): Insert {
    var lo := LowIndex(rs, s);
    var hi := HighIndex(rs, e, lo);
    if lo == hi then (if |rs| >= max then Full else Stored(false))
    else Stored(hi - lo == 1 && rs[lo].start <= s && e <= rs[lo].end)
  }

  /** Range `r` overlaps or adjoins `s .. e`. */
  predicate Touches(r: Range, s: int, e: int) {
    s <= r.end && r.start <= e
  }

  /** The ranges `lo .. hi` are exactly the ones touched. */
  lemma TouchedSlice(rs: seq<Range>, nxt: int, s: int, e: int, k: nat)
    requires RangesOk(rs, nxt) && s < e && k < |rs|
    ensures var lo := LowIndex(rs, s);
            lo <= k < HighIndex(rs, e, lo) <==> Touches(rs[k], s, e)
  {
  }

  /** Replacing the ranges `lo .. hi` by one that spans at most the gap they
      leave keeps the list sorted, disjoint and non-adjacent. */
  lemma SpliceOk(rs: seq<Range>, nxt: int, lo: nat, hi: nat, m: Range)
    requires RangesOk(rs, nxt) && lo <= hi <= |rs| && nxt < m.start < m.end
    requires forall k :: 0 <= k < lo ==> rs[k].end < m.start
    requires forall k :: hi <= k < |rs| ==> m.end < rs[k].start
    ensures RangesOk(rs[..lo] + [m] + rs[hi..], nxt)
  {
  }

  lemma InsertOk(rs: seq<Range>, nxt: int, s: int, e: int, stamp: nat, max: nat)
    requires RangesOk(rs, nxt) && nxt < s < e
    ensures RangesOk(Inserted(rs, s, e, stamp, max), nxt)
    ensures |rs| <= max ==> |Inserted(rs, s, e, stamp, max)| <= max
  {
    hide RangesOk, LowIndex, HighIndex;
    var lo := LowIndex(rs, s);
    var hi := HighIndex(rs, e, lo);
    GapAround(rs, nxt, s, e);
    if lo < hi {
      SpliceOk(rs, nxt, lo, hi, Merged(rs, lo, hi, s, e, stamp));
    } else {
      SpliceOk(rs, nxt, lo, lo, Range(s, e, stamp));
    }
  }

  /** The new range, merged with what it touches, clears its neighbours. */
  lemma GapAround(rs: seq<Range>, nxt: int, s: int, e: int)
    requires RangesOk(rs, nxt) && nxt < s < e
    ensures var lo := LowIndex(rs, s);
            var hi := HighIndex(rs, e, lo);
            && (forall k :: 0 <= k < lo ==> rs[k].end < s && (lo < hi ==> rs[k].end < rs[lo].start))
            && (forall k :: hi <= k < |rs| ==> e < rs[k].start && (lo < hi ==> rs[hi - 1].end < rs[k].start))
            && (lo < hi ==> nxt < rs[lo].start)
  {
  }

  /** Insertion reaches no further than what was held and what is new. */
  lemma InsertBound(rs: seq<Range>, s: int, e: int, stamp: nat, max: nat, bound: int)
    requires e <= bound && forall i :: 0 <= i < |rs| ==> rs[i].end <= bound
    ensures var r := Inserted(rs, s, e, stamp, max);
            forall i :: 0 <= i < |r| ==> r[i].end <= bound
  {
  }

  lemma SpliceHeld(rs: seq<Range>, lo: nat, hi: nat, m: Range, p: int)
    requires lo <= hi <= |rs|
    ensures Held(rs[..lo] + [m] + rs[hi..], p) <==>
            Held(rs[..lo], p) || Contains(m, p) || Held(rs[hi..], p)
    ensures Held(rs, p) <==> Held(rs[..lo], p) || Held(rs[lo..hi], p) || Held(rs[hi..], p)
  {
    HeldAppend(rs[..lo], [m], p);
    HeldAppend(rs[..lo] + [m], rs[hi..], p);
    assert Held([m], p) <==> Contains([m][0], p);
    HeldAppend(rs[..lo], rs[lo..hi], p);
    HeldAppend(rs[..lo] + rs[lo..hi], rs[hi..], p);
    assert rs == rs[..lo] + rs[lo..hi] + rs[hi..];
  }

  /** What the merged ranges and the new one cover is what the merge covers. */
  lemma MergedHeld(rs: seq<Range>, nxt: int, lo: nat, hi: nat, s: int, e: int, stamp: nat, p: int)
    requires RangesOk(rs, nxt) && s < e && lo < hi <= |rs|
    requires forall k :: lo <= k < hi ==> Touches(rs[k], s, e)
    ensures Contains(Merged(rs, lo, hi, s, e, stamp), p) <==> Held(rs[lo..hi], p) || s <= p < e
  {
    var mid := rs[lo..hi];
    assert forall k :: 0 <= k < |mid| ==> mid[k] == rs[lo + k];
    if Contains(Merged(rs, lo, hi, s, e, stamp), p) && !(s <= p < e) {
      if p < s {
        assert Contains(mid[0], p);
      } else {
        assert Contains(mid[|mid| - 1], p);
      }
    }
  }

  /** A stored insertion adds exactly its range; a refused one changes nothing. */
  lemma InsertHolds(rs: seq<Range>, nxt: int, s: int, e: int, stamp: nat, max: nat, p: int)
    requires RangesOk(rs, nxt) && nxt < s < e
    ensures Held(Inserted(rs, s, e, stamp, max), p) <==>
            Held(rs, p) || (Outcome(rs, s, e, max).Stored? && s <= p < e)
    ensures Outcome(rs, s, e, max).Full? ==> Inserted(rs, s, e, stamp, max) == rs
  {
    var lo := LowIndex(rs, s);
    var hi := HighIndex(rs, e, lo);
    if lo < hi {
      SpliceHeld(rs, lo, hi, Merged(rs, lo, hi, s, e, stamp), p);
      MergedHeld(rs, nxt, lo, hi, s, e, stamp, p);
    } else {
      SpliceHeld(rs, lo, lo, Range(s, e, stamp), p);
    }
  }

  /** `Full` exactly when every slot is used and no range touches the new one. */
  lemma FullIff(rs: seq<Range>, nxt: int, s: int, e: int, max: nat)
    requires RangesOk(rs, nxt) && nxt < s < e
    ensures Outcome(rs, s, e, max).Full? <==>
            |rs| >= max && forall k :: 0 <= k < |rs| ==> !Touches(rs[k], s, e)
  {
    var lo := LowIndex(rs, s);
    forall k | 0 <= k < |rs| ensures lo <= k < HighIndex(rs, e, lo) <==> Touches(rs[k], s, e) {
      TouchedSlice(rs, nxt, s, e, k);
    }
  }

  /** The position just past a range is not held: ranges are not adjacent. */
  lemma EndNotHeld(rs: seq<Range>, nxt: int, i: nat)
    requires RangesOk(rs, nxt) && i < |rs|
    ensures !Held(rs, rs[i].end)
  {
  }

  /** Positions with everything between them held lie in one range. */
  lemma SameRange(rs: seq<Range>, nxt: int, s: int, e: int, i: nat)
    requires RangesOk(rs, nxt) && i < |rs| && Contains(rs[i], s) && s < e
    requires forall p :: s <= p < e ==> Held(rs, p)
    ensures e <= rs[i].end
  {
    EndNotHeld(rs, nxt, i);
  }

  lemma OneTouched(rs: seq<Range>, nxt: int, s: int, e: int, i: nat)
    requires RangesOk(rs, nxt) && s < e && i < |rs| && rs[i].start <= s && e <= rs[i].end
    ensures LowIndex(rs, s) == i && HighIndex(rs, e, i) == i + 1
  {
    TouchedSlice(rs, nxt, s, e, i);
  }

  /** Reported as a duplicate exactly when every byte was already held. */
  lemma DupIff(rs: seq<Range>, nxt: int, s: int, e: int, max: nat)
    requires RangesOk(rs, nxt) && nxt < s < e
    ensures Outcome(rs, s, e, max) == Stored(true) <==> forall p :: s <= p < e ==> Held(rs, p)
  {
    var lo := LowIndex(rs, s);
    var hi := HighIndex(rs, e, lo);
    if Outcome(rs, s, e, max) == Stored(true) {
      assert forall p :: s <= p < e ==> Contains(rs[lo], p);
    }
    if forall p :: s <= p < e ==> Held(rs, p) {
      assert Held(rs, s);
      var i :| 0 <= i < |rs| && Contains(rs[i], s);
      SameRange(rs, nxt, s, e, i);
      TouchedSlice(rs, nxt, s, e, i);
      OneTouched(rs, nxt, s, e, i);
    }
  }

  // ---- Advancing -----------------------------------------------------------

  datatype Advance = Advance(ranges: seq<Range>, nxt: int)

  /** `advance`: drop ranges at or below `nxt`, absorbing those that reach past it. */
  function Advanced(rs: seq<Range>, nxt: int): Advance {
    if rs == [] || nxt < rs[0].start then Advance(rs, nxt)
    else Advanced(rs[1..], Max(nxt, rs[0].end))
  }

  lemma HeldCons(rs: seq<Range>, p: int)
    requires rs != []
    ensures Held(rs, p) <==> Contains(rs[0], p) || Held(rs[1..], p)
  {
    HeldAppend([rs[0]], rs[1..], p);
    assert rs == [rs[0]] + rs[1..];
    assert Held([rs[0]], p) <==> Contains([rs[0]][0], p);
  }

  lemma RestOk(rs: seq<Range>, nxt: int)
    requires rs != [] && RangesOk(rs, nxt)
    ensures RangesOk(rs[1..], nxt) && RangesOk(rs[1..], rs[0].end) && rs[0].start < rs[0].end
  {
    var rest := rs[1..];
    assert forall i :: 0 <= i < |rest| ==> rest[i] == rs[i + 1];
  }

  lemma {:induction false} AdvanceOk(rs: seq<Range>, base: int, nxt: int)
    requires RangesOk(rs, base)
    ensures var a := Advanced(rs, nxt);
            && a.nxt >= nxt && RangesOk(a.ranges, a.nxt) && |a.ranges| <= |rs|
            && (a.ranges != [] ==> rs != [] && a.ranges[|a.ranges| - 1] == rs[|rs| - 1])
    decreases |rs|
  {
    if rs == [] || nxt < rs[0].start {
    } else {
      RestOk(rs, base);
      AdvanceOk(rs[1..], base, Max(nxt, rs[0].end));
    }
  }

  /** Position by position: everything from `nxt` up to the new next position was
      held, that position itself was not, exactly what lies below it is dropped. */
  lemma {:induction false} AdvanceHolds(rs: seq<Range>, base: int, nxt: int, p: int)
    requires RangesOk(rs, base)
    ensures var a := Advanced(rs, nxt);
            && (nxt <= p < a.nxt ==> Held(rs, p))
            && (p == a.nxt ==> !Held(rs, p))
            && (Held(a.ranges, p) <==> Held(rs, p) && a.nxt <= p)
    decreases |rs|
  {
    if rs == [] || nxt < rs[0].start {
    } else {
      RestOk(rs, base);
      AdvanceHolds(rs[1..], base, Max(nxt, rs[0].end), p);
      AdvanceOk(rs[1..], base, Max(nxt, rs[0].end));
      HeldCons(rs, p);
    }
  }

  // ---- Truncating ----------------------------------------------------------

  /** `truncate_from`: forget everything at or beyond `lim`. */
  function Truncated(rs: seq<Range>, lim: int): seq<Range> {
    if rs == [] || lim <= rs[0].start then []
    else if lim < rs[0].end then [rs[0].(end := lim)]
    else [rs[0]] + Truncated(rs[1..], lim)
  }

  lemma {:induction false} TruncateOk(rs: seq<Range>, nxt: int, lim: int)
    requires RangesOk(rs, nxt)
    ensures RangesOk(Truncated(rs, lim), nxt) && |Truncated(rs, lim)| <= |rs|
  {
    if rs != [] && rs[0].end <= lim {
      RestOk(rs, nxt);
      TruncateOk(rs[1..], rs[0].end, lim);
    }
  }

  /** Exactly the positions below the limit stay held. */
  lemma {:induction false} TruncateHolds(rs: seq<Range>, nxt: int, lim: int, p: int)
    requires RangesOk(rs, nxt)
    ensures Held(Truncated(rs, lim), p) <==> Held(rs, p) && p < lim
  {
    if rs == [] || lim <= rs[0].start {
    } else {
      RestOk(rs, nxt);
      HeldCons(rs, p);
      HeldCons(Truncated(rs, lim), p);
      if rs[0].end <= lim {
        TruncateHolds(rs[1..], nxt, lim, p);
        assert Truncated(rs, lim)[1..] == Truncated(rs[1..], lim);
      } else {
        assert Truncated(rs, lim)[1..] == [];
      }
    }
  }

  // ---- Recency -------------------------------------------------------------

  predicate Distinct(rs: seq<Range>) {
    forall i, j :: 0 <= i < j < |rs| ==> rs[i].stamp != rs[j].stamp
  }

  lemma SpliceStamps(rs: seq<Range>, lo: nat, hi: nat, m: Range)
    requires lo <= hi <= |rs| && Distinct(rs)
    requires forall i :: 0 <= i < |rs| ==> rs[i].stamp < m.stamp
    ensures var r := rs[..lo] + [m] + rs[hi..];
            && r[lo] == m && Distinct(r) && forall i :: 0 <= i < |r| ==> r[i].stamp <= m.stamp
  {
    var r := rs[..lo] + [m] + rs[hi..];
    assert forall i :: 0 <= i < |r| ==> r[i] == if i < lo then rs[i] else if i == lo then m else rs[i - lo - 1 + hi];
  }

  /** Stamps stay distinct, and the range the insertion ends up in is the newest. */
  lemma InsertStamps(rs: seq<Range>, s: int, e: int, stamp: nat, max: nat)
    requires Distinct(rs) && forall i :: 0 <= i < |rs| ==> rs[i].stamp < stamp
    ensures var r := Inserted(rs, s, e, stamp, max);
            && Distinct(r) && (forall i :: 0 <= i < |r| ==> r[i].stamp <= stamp)
    ensures var r := Inserted(rs, s, e, stamp, max);
            Outcome(rs, s, e, max).Stored? ==>
              var lo := LowIndex(rs, s);
              lo < |r| && r[lo].stamp == stamp && r[lo].start <= s && e <= r[lo].end
  {
    hide Distinct;
    var lo := LowIndex(rs, s);
    var hi := HighIndex(rs, e, lo);
    if lo < hi {
      SpliceStamps(rs, lo, hi, Merged(rs, lo, hi, s, e, stamp));
    } else if |rs| < max {
      SpliceStamps(rs, lo, lo, Range(s, e, stamp));
    }
  }

  /** `x` is what is left of a range of `rs`, as recent as that was. */
  ghost predicate LeftOver(x: Range, rs: seq<Range>) {
    exists i :: 0 <= i < |rs| && rs[i].stamp == x.stamp && rs[i].start == x.start && x.end <= rs[i].end
  }

  lemma LeftOverMore(x: Range, rs: seq<Range>)
    requires rs != [] && LeftOver(x, rs[1..])
    ensures LeftOver(x, rs)
  {
    var i :| 0 <= i < |rs[1..]| && rs[1..][i].stamp == x.stamp && rs[1..][i].start == x.start && x.end <= rs[1..][i].end;
    assert rs[i + 1] == rs[1..][i];
  }

  /** Neither advancing nor truncating makes a range look more or less recent. */
  lemma {:induction false} AdvanceStamps(rs: seq<Range>, nxt: int, x: Range)
    requires x in Advanced(rs, nxt).ranges
    ensures x in rs
    decreases |rs|
  {
    if rs != [] && rs[0].start <= nxt {
      AdvanceStamps(rs[1..], Max(nxt, rs[0].end), x);
    }
  }

  lemma {:induction false} TruncateStamps(rs: seq<Range>, lim: int, x: Range)
    requires x in Truncated(rs, lim)
    ensures LeftOver(x, rs)
  {
    if x != rs[0] && rs[0].end <= lim {
      TruncateStamps(rs[1..], lim, x);
      LeftOverMore(x, rs);
    } else {
      assert rs[0].stamp == x.stamp;
    }
  }
}
