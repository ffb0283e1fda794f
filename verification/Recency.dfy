/** Which ranges `fill_sack_blocks` reports, and in what order: by the age its
    wrapping tags measure, which is mostly, but not always, the true age. */
module Recency {
  import opened Serial
  import opened Ranges

  /** Newest first. */
  predicate NewestFirst(rs: seq<Range>) {
    forall i, j :: 0 <= i < j < |rs| ==> rs[i].stamp > rs[j].stamp
  }

  function InsertByAge(top: seq<Range>, c: Range): seq<Range> {
    if top == [] || c.stamp > top[0].stamp then [c] + top
    else [top[0]] + InsertByAge(top[1..], c)
  }

  /** The ranges ordered newest first. */
  function ByAge(rs: seq<Range>): seq<Range> {
    if rs == [] then [] else InsertByAge(ByAge(rs[..|rs| - 1]), rs[|rs| - 1])
  }

  function Take(rs: seq<Range>, k: nat): seq<Range> {
    if |rs| <= k then rs else rs[..k]
  }

  lemma {:induction false} InsertByAgeMultiset(top: seq<Range>, c: Range)
    ensures multiset(InsertByAge(top, c)) == multiset(top) + multiset{c}
    ensures |InsertByAge(top, c)| == |top| + 1
  {
    if top == [] || c.stamp > top[0].stamp {
    } else {
      InsertByAgeMultiset(top[1..], c);
      assert top == [top[0]] + top[1..];
    }
  }

  lemma {:induction false} InsertByAgeOrder(top: seq<Range>, c: Range)
    requires NewestFirst(top)
    requires forall i :: 0 <= i < |top| ==> top[i].stamp != c.stamp
    ensures NewestFirst(InsertByAge(top, c))
    ensures forall x :: x in InsertByAge(top, c) ==> x in top || x == c
  {
    if top == [] || c.stamp > top[0].stamp {
    } else {
      var rest := top[1..];
      assert forall i :: 0 <= i < |rest| ==> rest[i] == top[i + 1];
      InsertByAgeOrder(rest, c);
      var t := InsertByAge(rest, c);
      forall j | 0 <= j < |t| ensures top[0].stamp > t[j].stamp {
        assert t[j] in t;
      }
    }
  }

  /** `ByAge` reorders the ranges, newest first. */
  lemma {:induction false} ByAgeSorts(rs: seq<Range>)
    requires Distinct(rs)
    ensures multiset(ByAge(rs)) == multiset(rs) && |ByAge(rs)| == |rs|
    ensures NewestFirst(ByAge(rs))
  {
    if rs != [] {
      var n := |rs| - 1;
      var init := rs[..n];
      ByAgeSorts(init);
      InsertByAgeMultiset(ByAge(init), rs[n]);
      assert rs == init + [rs[n]];
      var sorted := ByAge(init);
      forall i | 0 <= i < |sorted| ensures sorted[i].stamp != rs[n].stamp {
        assert sorted[i] in multiset(sorted);
        assert sorted[i] in init;
      }
      InsertByAgeOrder(sorted, rs[n]);
    }
  }

  // ---- The swap loop -------------------------------------------------------

  /** One pass: `c` goes down the slots from `j`, changing places with every older
      range it meets; what falls off slot `k` is dropped. */
  function Bubble(top: seq<Range>, c: Range, j: nat, k: nat): (r: seq<Range>)
    requires j <= |top| <= k
    ensures |r| == if |top| < k then |top| + 1 else |top|
    decreases k - j
  {
    if j == k then top
    else if j == |top| then top + [c]
    else if c.stamp > top[j].stamp then Bubble(top[j := c], top[j], j + 1, k)
    else Bubble(top, c, j + 1, k)
  }

  /** What falls off. */
  function Fallen(top: seq<Range>, c: Range, j: nat, k: nat): (r: seq<Range>)
    requires j <= |top| <= k
    ensures |r| == if |top| < k then 0 else 1
    decreases k - j
  {
    if j == k then [c]
    else if j == |top| then []
    else if c.stamp > top[j].stamp then Fallen(top[j := c], top[j], j + 1, k)
    else Fallen(top, c, j + 1, k)
  }

  /** The whole loop over `rs` with `k` slots. */
  function Selected(rs: seq<Range>, k: nat): (r: seq<Range>)
    ensures |r| == Min(|rs|, k)
  {
    if rs == [] then [] else Bubble(Selected(rs[..|rs| - 1], k), rs[|rs| - 1], 0, k)
  }

  function Unselected(rs: seq<Range>, k: nat): (r: seq<Range>)
    ensures |r| == |rs| - Min(|rs|, k)
  {
    if rs == [] then []
    else Unselected(rs[..|rs| - 1], k) + Fallen(Selected(rs[..|rs| - 1], k), rs[|rs| - 1], 0, k)
  }

  /** No range is newer than one before it; ties are possible. */
  predicate Descending(rs: seq<Range>) {
    forall i, j :: 0 <= i < j < |rs| ==> rs[i].stamp >= rs[j].stamp
  }

  /** No range of `low` is newer than one of `high`. */
  predicate Dominates(high: seq<Range>, low: seq<Range>) {
    forall x, y :: x in low && y in high ==> x.stamp <= y.stamp
  }

  lemma {:induction false} BubbleSorts(top: seq<Range>, c: Range, j: nat, k: nat)
    requires j <= |top| <= k && Descending(top)
    requires forall i :: 0 <= i < j ==> top[i].stamp >= c.stamp
    ensures Descending(Bubble(top, c, j, k))
    ensures Dominates(Bubble(top, c, j, k), Fallen(top, c, j, k))
    decreases k - j
  {
    if j == k || j == |top| {
    } else {
      hide Dominates;
      if c.stamp > top[j].stamp {
        SwapDescends(top, c, j);
        hide Descending;
        BubbleSorts(top[j := c], top[j], j + 1, k);
      } else {
        hide Descending;
        BubbleSorts(top, c, j + 1, k);
      }
    }
  }

  lemma SwapDescends(top: seq<Range>, c: Range, j: nat)
    requires j < |top| && Descending(top) && c.stamp > top[j].stamp
    requires forall i :: 0 <= i < j ==> top[i].stamp >= c.stamp
    ensures var next := top[j := c];
            Descending(next) && forall i :: 0 <= i <= j ==> next[i].stamp >= top[j].stamp
  {
  }

  lemma {:induction false} BubbleKeeps(top: seq<Range>, c: Range, j: nat, k: nat)
    requires j <= |top| <= k
    ensures multiset(Bubble(top, c, j, k)) + multiset(Fallen(top, c, j, k)) == multiset(top) + multiset{c}
    decreases k - j
  {
    if j == k || j == |top| {
    } else if c.stamp > top[j].stamp {
      BubbleKeeps(top[j := c], top[j], j + 1, k);
      assert top[j] in multiset(top);
    } else {
      BubbleKeeps(top, c, j + 1, k);
    }
  }

  /** A full selection only gets newer. */
  lemma {:induction false} BubbleFloor(top: seq<Range>, c: Range, j: nat, k: nat, floor: nat)
    requires j <= |top| == k && forall x :: x in top ==> floor <= x.stamp
    ensures forall y :: y in Bubble(top, c, j, k) ==> floor <= y.stamp
    decreases k - j
  {
    if j < k {
      if c.stamp > top[j].stamp {
        assert top[j] in top;
        BubbleFloor(top[j := c], top[j], j + 1, k, floor);
      } else {
        BubbleFloor(top, c, j + 1, k, floor);
      }
    }
  }

  lemma KeepsDominating(top: seq<Range>, low: seq<Range>, c: Range, k: nat)
    requires |top| <= k && Dominates(top, low) && (|top| < k ==> low == [])
    ensures Dominates(Bubble(top, c, 0, k), low)
  {
    if |top| == k {
      forall x | x in low ensures forall y :: y in Bubble(top, c, 0, k) ==> x.stamp <= y.stamp {
        BubbleFloor(top, c, 0, k, x.stamp);
      }
    }
  }

  /** Whatever the ties: the selection is in order, and nothing left out is newer
      than anything selected. */
  lemma SelectsNewest(rs: seq<Range>, k: nat)
    ensures Descending(Selected(rs, k)) && Dominates(Selected(rs, k), Unselected(rs, k))
    ensures multiset(Selected(rs, k)) + multiset(Unselected(rs, k)) == multiset(rs)
  {
    SelectionSorts(rs, k);
    SelectionKeeps(rs, k);
  }

  lemma {:induction false} SelectionSorts(rs: seq<Range>, k: nat)
    ensures Descending(Selected(rs, k)) && Dominates(Selected(rs, k), Unselected(rs, k))
  {
    if rs != [] {
      hide Selected, Unselected, Bubble, Fallen, Descending, Dominates;
      var init, c := rs[..|rs| - 1], rs[|rs| - 1];
      var top, low := Selected(init, k), Unselected(init, k);
      SelectionSorts(init, k);
      SelectedStep(rs, k);
      BubbleSorts(top, c, 0, k);
      KeepsDominating(top, low, c, k);
      DominatesBoth(Bubble(top, c, 0, k), low, Fallen(top, c, 0, k));
    }
  }

  lemma {:induction false} SelectionKeeps(rs: seq<Range>, k: nat)
    ensures multiset(Selected(rs, k)) + multiset(Unselected(rs, k)) == multiset(rs)
  {
    if rs != [] {
      hide Selected, Unselected, Bubble, Fallen;
      var init, c := rs[..|rs| - 1], rs[|rs| - 1];
      SelectionKeeps(init, k);
      SelectedStep(rs, k);
      var top, low := Selected(init, k), Unselected(init, k);
      BubbleKeeps(top, c, 0, k);
      assert rs == init + [c];
      Regroup(multiset(Bubble(top, c, 0, k)), multiset(Fallen(top, c, 0, k)), multiset(low),
              multiset(top), multiset{c});
    }
  }

  lemma Regroup(b: multiset<Range>, f: multiset<Range>, low: multiset<Range>, top: multiset<Range>, c: multiset<Range>)
    requires b + f == top + c
    ensures b + (low + f) == top + low + c
  {
    assert b + (low + f) == (b + f) + low;
  }

  lemma SelectedStep(rs: seq<Range>, k: nat)
    requires rs != []
    ensures var init, c := rs[..|rs| - 1], rs[|rs| - 1];
            && Selected(rs, k) == Bubble(Selected(init, k), c, 0, k)
            && Unselected(rs, k) == Unselected(init, k) + Fallen(Selected(init, k), c, 0, k)
  {
  }

  lemma DominatesBoth(high: seq<Range>, low: seq<Range>, low': seq<Range>)
    requires Dominates(high, low) && Dominates(high, low')
    ensures Dominates(high, low + low')
  {
  }

  lemma SelectedMember(rs: seq<Range>, k: nat, x: Range)
    requires x in Selected(rs, k)
    ensures x in rs
  {
    SelectsNewest(rs, k);
    assert x in multiset(Selected(rs, k));
    assert x in multiset(rs);
  }

  // ---- What settles the selection ------------------------------------------

  /** Each of the first `k` is newer than everything after it. */
  predicate InOrderTo(rs: seq<Range>, k: nat) {
    forall i, j :: 0 <= i < j < |rs| && i < k ==> rs[i].stamp > rs[j].stamp
  }

  /** At least as new. */
  predicate WeaklyInOrderTo(rs: seq<Range>, k: nat) {
    forall i, j :: 0 <= i < j < |rs| && i < k ==> rs[i].stamp >= rs[j].stamp
  }

  lemma Cancel(a: multiset<Range>, b: multiset<Range>, c: multiset<Range>)
    requires a + b == a + c
    ensures b == c
  {
    forall x ensures b[x] == c[x] {
      assert (a + b)[x] == (a + c)[x];
    }
  }

  /** `x` is in order, is all of `u` but for `low`, and nothing of `low` is newer. */
  ghost predicate Picks(x: seq<Range>, low: seq<Range>, u: seq<Range>) {
    Descending(x) && Dominates(x, low) && multiset(x) + multiset(low) == multiset(u)
  }

  /** A selection is determined by any arrangement that is in order up to `k`. */
  lemma {:induction false} PickUnique(x: seq<Range>, low: seq<Range>, u: seq<Range>, k: nat)
    requires |x| == Min(|u|, k) && Picks(x, low, u) && InOrderTo(u, k)
    ensures x == Take(u, k)
    decreases k
  {
    hide Picks, InOrderTo;
    if k > 0 && u != [] {
      SameHead(x, low, u, k);
      PicksTail(x, low, u);
      InOrderTail(u, k);
      PickUnique(x[1..], low, u[1..], k - 1);
      assert x == [x[0]] + x[1..] && u == [u[0]] + u[1..];
    }
  }

  lemma PicksTail(x: seq<Range>, low: seq<Range>, u: seq<Range>)
    requires 0 < |x| && 0 < |u| && x[0] == u[0] && Picks(x, low, u)
    ensures Picks(x[1..], low, u[1..])
  {
    TailMultiset(x, low, u);
    var x' := x[1..];
    assert forall y :: y in x' ==> y in x;
  }

  lemma InOrderTail(u: seq<Range>, k: nat)
    requires 0 < |u| && 0 < k && InOrderTo(u, k)
    ensures InOrderTo(u[1..], k - 1)
  {
  }

  lemma TailMultiset(x: seq<Range>, low: seq<Range>, u: seq<Range>)
    requires 0 < |x| && 0 < |u| && x[0] == u[0] && multiset(x) + multiset(low) == multiset(u)
    ensures multiset(x[1..]) + multiset(low) == multiset(u[1..])
  {
    var head := multiset{x[0]};
    assert x == [x[0]] + x[1..] && u == [u[0]] + u[1..];
    assert multiset(x) == head + multiset(x[1..]) && multiset(u) == head + multiset(u[1..]);
    Assoc(head, multiset(x[1..]), multiset(low));
    Cancel(head, multiset(x[1..]) + multiset(low), multiset(u[1..]));
  }

  lemma Assoc(a: multiset<Range>, b: multiset<Range>, c: multiset<Range>)
    ensures a + (b + c) == a + b + c
  {
  }

  lemma SameHead(x: seq<Range>, low: seq<Range>, u: seq<Range>, k: nat)
    requires 0 < |x| && 0 < |u| && 0 < k && Picks(x, low, u) && InOrderTo(u, k)
    ensures x[0] == u[0]
  {
    assert u[0] in multiset(u);
    assert u[0].stamp <= x[0].stamp by {
      assert x[0] in x;
      if u[0] in multiset(x) {
        var i :| 0 <= i < |x| && x[i] == u[0];
      } else {
        assert u[0] in low;
      }
    }
    assert x[0] in multiset(u);
    var m :| 0 <= m < |u| && u[m] == x[0];
  }

  /** An arrangement whose first `k` are the selection is weakly in order. */
  lemma SelectedIsWeak(x: seq<Range>, low: seq<Range>, u: seq<Range>, k: nat)
    requires Picks(x, low, u) && x == Take(u, k)
    ensures WeaklyInOrderTo(u, k)
  {
    if k < |u| {
      assert u == u[..k] + u[k..];
      Cancel(multiset(x), multiset(low), multiset(u[k..]));
      forall i, j | 0 <= i < j < |u| && i < k ensures u[i].stamp >= u[j].stamp {
        if j < k {
          assert x[i] == u[i] && x[j] == u[j];
        } else {
          assert u[j] == u[k..][j - k];
          assert u[j] in multiset(u[k..]);
          assert u[j] in low && x[i] in x;
        }
      }
    } else {
      assert forall i :: 0 <= i < |u| ==> x[i] == u[i];
    }
  }

  // ---- Ages as measured ----------------------------------------------------

  /** The age 32-bit tags show at insertion number `clock`. */
  function Age(r: Range, clock: nat): nat {
    (clock - r.stamp) % MOD
  }

  /** `r` stamped by its measured age. */
  function AsMeasured(r: Range, clock: nat): Range {
    r.(stamp := MOD - Age(r, clock))
  }

  function Measured(rs: seq<Range>, clock: nat): (m: seq<Range>)
    ensures |m| == |rs|
    ensures forall i :: 0 <= i < |rs| ==> m[i] == AsMeasured(rs[i], clock)
  {
    seq(|rs|, i requires 0 <= i < |rs| => AsMeasured(rs[i], clock))
  }

  function Extents(rs: seq<Range>): (x: seq<(int, int)>)
    ensures |x| == |rs|
    ensures forall i :: 0 <= i < |rs| ==> x[i] == (rs[i].start, rs[i].end)
  {
    seq(|rs|, i requires 0 <= i < |rs| => (rs[i].start, rs[i].end))
  }

  /** What the loop reports: by measured age, at most `k`. */
  function Reported(rs: seq<Range>, clock: nat, k: nat): seq<(int, int)> {
    Extents(Selected(Measured(rs, clock), k))
  }

  /** What it should report: the `k` most recently changed ranges, newest first. */
  function Newest(rs: seq<Range>, k: nat): seq<(int, int)> {
    Extents(Take(ByAge(rs), k))
  }

  /** Each of the `k` newest measures younger than every older range. */
  predicate LooksNewer(rs: seq<Range>, clock: nat, k: nat) {
    var t := ByAge(rs);
    forall i, j :: 0 <= i < j < |t| && i < k ==> Age(t[i], clock) < Age(t[j], clock)
  }

  /** None of the `k` newest measures the same as an older range. */
  predicate NoTies(rs: seq<Range>, clock: nat, k: nat) {
    var t := ByAge(rs);
    forall i, j :: 0 <= i < j < |t| && i < k ==> Age(t[i], clock) != Age(t[j], clock)
  }

  predicate LooksNoOlder(rs: seq<Range>, clock: nat, k: nat) {
    var t := ByAge(rs);
    forall i, j :: 0 <= i < j < |t| && i < k ==> Age(t[i], clock) <= Age(t[j], clock)
  }

  lemma {:induction false} MeasuredMultiset(a: seq<Range>, b: seq<Range>, clock: nat)
    requires multiset(a) == multiset(b)
    ensures multiset(Measured(a, clock)) == multiset(Measured(b, clock))
    decreases |a|
  {
    if a == [] {
      assert |multiset(b)| == 0;
    } else {
      assert a[0] in multiset(b);
      var m :| 0 <= m < |b| && b[m] == a[0];
      var b' := b[..m] + b[m + 1..];
      assert a == [a[0]] + a[1..] && b == b[..m] + [b[m]] + b[m + 1..];
      Cancel(multiset{a[0]}, multiset(a[1..]), multiset(b'));
      MeasuredMultiset(a[1..], b', clock);
      MeasuredAround(a, 0, clock);
      MeasuredAround(b, m, clock);
      assert a[..0] + a[1..] == a[1..];
    }
  }

  lemma MeasuredAround(b: seq<Range>, m: nat, clock: nat)
    requires m < |b|
    ensures multiset(Measured(b, clock))
            == multiset{AsMeasured(b[m], clock)} + multiset(Measured(b[..m] + b[m + 1..], clock))
  {
    var x := Measured(b, clock);
    assert x == x[..m] + [x[m]] + x[m + 1..];
    assert Measured(b[..m] + b[m + 1..], clock) == x[..m] + x[m + 1..];
  }

  /** The ranges in their true order, stamped as measured, against the selection. */
  lemma MeasuredPicks(rs: seq<Range>, clock: nat, k: nat)
    requires Distinct(rs)
    ensures var x, u := Selected(Measured(rs, clock), k), Measured(ByAge(rs), clock);
            |x| == Min(|u|, k) && Picks(x, Unselected(Measured(rs, clock), k), u)
  {
    ByAgeSorts(rs);
    MeasuredMultiset(ByAge(rs), rs, clock);
    SelectsNewest(Measured(rs, clock), k);
  }

  /** For every list: it reports the newest, newest first, if each of them measures
      younger than every older range, and only if none measures older. */
  lemma NewestFirstBounds(rs: seq<Range>, nxt: int, clock: nat, k: nat)
    requires RangesOk(rs, nxt) && Distinct(rs)
    ensures LooksNewer(rs, clock, k) ==> Reported(rs, clock, k) == Newest(rs, k)
    ensures Reported(rs, clock, k) == Newest(rs, k) ==> LooksNoOlder(rs, clock, k)
  {
    hide Picks, Selected, Unselected, ByAge, Distinct, RangesOk;
    var t := ByAge(rs);
    var x, low, u := Selected(Measured(rs, clock), k), Unselected(Measured(rs, clock), k), Measured(t, clock);
    MeasuredPicks(rs, clock, k);
    if LooksNewer(rs, clock, k) {
      assert InOrderTo(u, k);
      PickUnique(x, low, u, k);
      SameExtents(t, clock, k);
    }
    if Reported(rs, clock, k) == Newest(rs, k) {
      SameRanges(rs, nxt, clock, k);
      SelectedIsWeak(x, low, u, k);
      forall i, j | 0 <= i < j < |t| && i < k ensures Age(t[i], clock) <= Age(t[j], clock) {
        assert u[i].stamp >= u[j].stamp;
      }
    }
  }

  lemma SameExtents(t: seq<Range>, clock: nat, k: nat)
    ensures Extents(Take(Measured(t, clock), k)) == Extents(Take(t, k))
  {
  }

  /** Ranges are told apart by where they start. */
  lemma SameRanges(rs: seq<Range>, nxt: int, clock: nat, k: nat)
    requires RangesOk(rs, nxt) && Distinct(rs) && Reported(rs, clock, k) == Newest(rs, k)
    ensures Selected(Measured(rs, clock), k) == Take(Measured(ByAge(rs), clock), k)
  {
    hide Selected, ByAge, Distinct;
    var t, all := ByAge(rs), Measured(rs, clock);
    var x, y := Selected(all, k), Take(Measured(t, clock), k);
    ByAgeSorts(rs);
    forall i | 0 <= i < |x| ensures x[i] == y[i] {
      assert x[i] in x;
      SelectedMember(all, k, x[i]);
      var m :| 0 <= m < |all| && all[m] == x[i];
      assert t[i] in multiset(t);
      assert t[i] in multiset(rs);
      var m' :| 0 <= m' < |rs| && rs[m'] == t[i];
      assert Extents(x)[i] == Extents(Take(t, k))[i];
      assert rs[m].start == rs[m'].start;
    }
  }

  /** Without ties the condition is exact. */
  lemma NewestFirstIff(rs: seq<Range>, nxt: int, clock: nat, k: nat)
    requires RangesOk(rs, nxt) && Distinct(rs) && NoTies(rs, clock, k)
    ensures Reported(rs, clock, k) == Newest(rs, k) <==> LooksNewer(rs, clock, k)
  {
    hide RangesOk, Distinct, Reported, Newest;
    NewestFirstBounds(rs, nxt, clock, k);
  }

  /** It holds in particular while every range was changed within the last 2^32 - 1
      insertions. */
  lemma FreshLooksNewer(rs: seq<Range>, clock: nat, k: nat)
    requires Distinct(rs) && forall i :: 0 <= i < |rs| ==> rs[i].stamp < clock < rs[i].stamp + MOD
    ensures LooksNewer(rs, clock, k) && NoTies(rs, clock, k)
  {
    ByAgeSorts(rs);
    var t := ByAge(rs);
    forall i | 0 <= i < |t| ensures Age(t[i], clock) == clock - t[i].stamp {
      assert t[i] in multiset(t);
      assert t[i] in multiset(rs);
      var m :| 0 <= m < |rs| && rs[m] == t[i];
      SmallAge(t[i], clock);
    }
  }

  lemma SmallAge(r: Range, clock: nat)
    requires r.stamp < clock < r.stamp + MOD
    ensures Age(r, clock) == clock - r.stamp
  {
  }

  // ---- Blocks lie apart ----------------------------------------------------

  /** No two blocks overlap or touch. */
  predicate Apart(blocks: seq<(int, int)>) {
    forall i, j :: 0 <= i < j < |blocks| ==>
      blocks[i].1 < blocks[j].0 || blocks[j].1 < blocks[i].0
  }

  lemma TwiceCounts(x: seq<Range>, i: nat, j: nat)
    requires i < j < |x| && x[i] == x[j]
    ensures multiset(x)[x[i]] >= 2
  {
    assert x == x[..j] + [x[j]] + x[j + 1..];
    assert x[..j][i] in multiset(x[..j]);
  }

  lemma OnceCounts(x: seq<Range>, v: Range)
    requires forall i, j :: 0 <= i < j < |x| ==> x[i] != x[j]
    ensures multiset(x)[v] <= 1
  {
    if v in x {
      var a :| 0 <= a < |x| && x[a] == v;
      assert x == x[..a] + [x[a]] + x[a + 1..];
      assert v !in x[..a] && v !in x[a + 1..];
    }
  }

  lemma SelectedOnce(all: seq<Range>, k: nat, i: nat, j: nat)
    requires forall a, b :: 0 <= a < b < |all| ==> all[a] != all[b]
    requires i < j < |Selected(all, k)|
    ensures Selected(all, k)[i] != Selected(all, k)[j]
  {
    hide Selected, Unselected, Descending, Dominates;
    var x := Selected(all, k);
    SelectsNewest(all, k);
    if x[i] == x[j] {
      TwiceCounts(x, i, j);
      OnceCounts(all, x[i]);
      assert false;
    }
  }

  lemma SelectedRange(rs: seq<Range>, clock: nat, k: nat, i: nat) returns (j: nat)
    requires i < |Selected(Measured(rs, clock), k)|
    ensures j < |rs| && Selected(Measured(rs, clock), k)[i] == AsMeasured(rs[j], clock)
  {
    hide Selected;
    var all := Measured(rs, clock);
    var x := Selected(all, k);
    assert x[i] in x;
    SelectedMember(all, k, x[i]);
    j :| 0 <= j < |all| && all[j] == x[i];
  }

  /** Distinct ranges give distinct blocks, and ranges lie apart. */
  lemma ReportedApart(rs: seq<Range>, nxt: int, clock: nat, k: nat)
    requires RangesOk(rs, nxt)
    ensures Apart(Reported(rs, clock, k))
  {
    hide Selected;
    var all := Measured(rs, clock);
    var x := Selected(all, k);
    forall i, j | 0 <= i < j < |x| ensures x[i].end < x[j].start || x[j].end < x[i].start {
      var a := SelectedRange(rs, clock, k, i);
      var b := SelectedRange(rs, clock, k, j);
      SelectedOnce(all, k, i, j);
    }
  }

  // ---- The first block -----------------------------------------------------

  /** Range `i` is newest, and of equally new ones the first in the list. */
  predicate Leads(rs: seq<Range>, i: nat) {
    i < |rs| && forall j :: 0 <= j < |rs| && j != i ==>
      rs[j].stamp < rs[i].stamp || (rs[j].stamp == rs[i].stamp && i < j)
  }

  lemma {:induction false} BubbleHead(top: seq<Range>, c: Range, j: nat, k: nat)
    requires 0 < j <= |top| <= k
    ensures Bubble(top, c, j, k)[0] == top[0]
    decreases k - j
  {
    if j < k && j < |top| {
      if c.stamp > top[j].stamp {
        BubbleHead(top[j := c], top[j], j + 1, k);
      } else {
        BubbleHead(top, c, j + 1, k);
      }
    }
  }

  lemma {:induction false} LeaderFirst(rs: seq<Range>, k: nat, i: nat)
    requires Leads(rs, i) && k > 0
    ensures Selected(rs, k)[0] == rs[i]
  {
    var n := |rs| - 1;
    var init, c := rs[..n], rs[n];
    var top := Selected(init, k);
    if i < n {
      LeaderFirst(init, k, i);
      BubbleHead(top, c, 1, k);
    } else if n > 0 {
      SelectedMember(init, k, top[0]);
      BubbleHead(top[0 := c], top[0], 1, k);
    }
  }

  lemma {:induction false} SomeLeader(rs: seq<Range>) returns (i: nat)
    requires rs != []
    ensures Leads(rs, i)
  {
    var n := |rs| - 1;
    if n == 0 {
      i := 0;
    } else {
      i := SomeLeader(rs[..n]);
      if rs[n].stamp > rs[i].stamp {
        i := n;
      }
    }
  }

  /** Right after a stored insertion, with room for a block: the first block covers it
      exactly when every other range measures older, or as old and lies above it. */
  lemma FirstBlockIff(rs: seq<Range>, nxt: int, s: int, e: int, clock: nat, max: nat, k: nat)
    requires RangesOk(rs, nxt) && nxt < s < e && Outcome(rs, s, e, max).Stored? && k > 0
    requires Distinct(rs) && forall i :: 0 <= i < |rs| ==> rs[i].stamp < clock
    ensures var r, lo := Inserted(rs, s, e, clock, max), LowIndex(rs, s);
            var first := Reported(r, clock + 1, k);
            && lo < |r| && first != []
            && (first[0].0 <= s && e <= first[0].1 <==>
                forall j :: 0 <= j < |r| && j != lo ==>
                  Age(r[j], clock + 1) > 1 || (Age(r[j], clock + 1) == 1 && lo < j))
  {
    hide Selected, Inserted, Outcome, Distinct, LowIndex;
    var r, lo := Inserted(rs, s, e, clock, max), LowIndex(rs, s);
    InsertOk(rs, nxt, s, e, clock, max);
    InsertStamps(rs, s, e, clock, max);
    var m := Measured(r, clock + 1);
    var i := SomeLeader(m);
    LeaderFirst(m, k, i);
    assert Age(r[lo], clock + 1) == 1;
  }

  // ---- Where the order is wrong --------------------------------------------

  /** A range untouched for 2^32 insertions is reported ahead of a newer one. */
  lemma StaleReportedFirst()
    ensures var rs, clock := [Range(10, 20, 1), Range(30, 40, MOD)], MOD + 2;
            && RangesOk(rs, 0) && Distinct(rs) && NoTies(rs, clock, 4)
            && Reported(rs, clock, 4) == [(10, 20), (30, 40)]
            && Newest(rs, 4) == [(30, 40), (10, 20)]
  {
    var a, b, clock := Range(10, 20, 1), Range(30, 40, MOD), MOD + 2;
    OfTwo(a, b, clock);
  }

  /** A tie is settled by which range lies lower, so it may go either way. */
  lemma TieGoesEitherWay()
    ensures var clock := MOD + 2;
            var low, high := [Range(10, 20, MOD + 1), Range(30, 40, 1)], [Range(10, 20, 1), Range(30, 40, MOD + 1)];
            && Reported(low, clock, 4) == Newest(low, 4)
            && Reported(high, clock, 4) != Newest(high, 4)
  {
    OfTwo(Range(10, 20, MOD + 1), Range(30, 40, 1), MOD + 2);
    OfTwo(Range(10, 20, 1), Range(30, 40, MOD + 1), MOD + 2);
  }

  lemma OfTwo(a: Range, b: Range, clock: nat)
    requires a.stamp != b.stamp
    ensures ByAge([a, b]) == if b.stamp > a.stamp then [b, a] else [a, b]
    ensures Selected(Measured([a, b], clock), 4) ==
            var x, y := AsMeasured(a, clock), AsMeasured(b, clock);
            if Age(b, clock) < Age(a, clock) then [y, x] else [x, y]
  {
    var rs := [a, b];
    assert rs[..1] == [a] && [a][..0] == [];
    assert ByAge([a]) == [a] && [a][1..] == [];
    assert InsertByAge([a], b) == if b.stamp > a.stamp then [b, a] else [a, b];
    var x, y := AsMeasured(a, clock), AsMeasured(b, clock);
    assert Measured(rs, clock) == [x, y] && [x, y][..1] == [x] && [x][..0] == [];
    assert Selected([x], 4) == [x];
  }
}
