/** Indices on a ring of slots. */
module Circular {

  /** Slot `i` places after `head` on the ring: `(head + i) % cap`. */
  function Slot(head: nat, i: nat, cap: nat): (p: nat)
    requires head < cap && i <= cap
    ensures p < cap
  {
    if head + i < cap then head + i else head + i - cap
  }

  lemma SlotIsMod(head: nat, i: nat, cap: nat)
    requires head < cap && i <= cap
    ensures Slot(head, i, cap) == (head + i) % cap
  {
    if head + i < cap {
      ModUnique(head + i, 0, head + i, cap);
    } else {
      ModUnique(head + i, 1, head + i - cap, cap);
    }
  }

  lemma ModUnique(x: int, k: int, r: int, m: int)
    requires 0 <= r < m && x == k * m + r
    ensures x % m == r
  {
    var k', r' := x / m, x % m;
    var d := k - k';
    assert x == k' * m + r';
    assert d * m == k * m - k' * m;
    Scaled(d, m);
  }

  lemma Scaled(d: int, m: int)
    requires m > 0
    ensures d >= 1 ==> d * m >= m
    ensures d <= -1 ==> d * m <= -m
  {
    if d >= 1 {
      assert (d - 1) * m >= 0;
    } else if d <= -1 {
      assert (-1 - d) * m >= 0;
    }
  }

  /** How far slot `p` lies after `from` on the ring. */
  function Distance(from: nat, p: nat, cap: nat): (d: nat)
    requires from < cap && p < cap
    ensures d < cap && Slot(from, d, cap) == p
  {
    if p >= from then p - from else p + cap - from
  }

  /** Reducing twice, first by a multiple of the ring's size, changes nothing. */
  lemma ModOfMod(x: nat, n: nat, turns: nat)
    requires n > 0 && turns > 0
    ensures n * turns > 0 && (x % (n * turns)) % n == x % n
  {
    var m := n * turns;
    assert m >= n by {
      Scaled(turns, n);
    }
    var q, r := x / m, x % m;
    var q', r' := r / n, r % n;
    assert x == q * m + r && r == q' * n + r';
    assert q * m == (q * turns) * n;
    assert x == (q * turns + q') * n + r';
    ModUnique(x, q * turns + q', r', n);
  }

  /** Adding `k` less than a turn moves `k` slots on. */
  lemma ModAdd(x: nat, k: nat, n: nat)
    requires n > 0 && k <= n
    ensures (x + k) % n == Slot(x % n, k, n)
  {
    var q, r := x / n, x % n;
    assert x == q * n + r;
    if r + k < n {
      ModUnique(x + k, q, r + k, n);
    } else {
      assert x + k == (q + 1) * n + (r + k - n);
      ModUnique(x + k, q + 1, r + k - n, n);
    }
  }
}
