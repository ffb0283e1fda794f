/** The per-slot bitmap that mirrors the SACKED flag, 64 slots to a word, over a
    ring of `cap` slots (`cap` a multiple of 64). */
module SackBitmap {
  import opened Bits
  import opened Circular

  predicate Sized(ws: seq<Word>, cap: nat) {
    0 < cap && cap % 64 == 0 && cap <= 64 * |ws|
  }

  predicate BitAt(ws: seq<Word>, p: nat)
    requires p < 64 * |ws|
  {
    Bit(ws[p / 64], p % 64)
  }

  // ---- Setting one bit -----------------------------------------------------

  lemma SetBitInWord(w: Word, b: nat, k: nat)
    requires b < 64 && k < 64
    ensures Bit(WordOr(w, Shl(1, b)), k) == (Bit(w, k) || k == b)
    ensures Bit(And(w, Not(Shl(1, b))), k) == (Bit(w, k) && k != b)
  {
    OrBit(w, Shl(1, b), k);
    AndBit(w, Not(Shl(1, b)), k);
    NotBit(Shl(1, b), k);
    ShlBit(1, b, k);
    OneBit(k - b);
  }

  lemma OneBit(k: int)
    ensures k >= 0 ==> Bit(1, k) == (k == 0)
  {
    if k > 0 {
      ZeroBit(k - 1);
    }
  }

  method SetBit(ws: array<Word>, p: nat, on: bool)
    requires p < 64 * ws.Length
    modifies ws
    ensures forall k :: 0 <= k < 64 * ws.Length ==>
              BitAt(ws[..], k) == if k == p then on else BitAt(old(ws[..]), k)
  {
    var w, b := ws[p / 64], p % 64;
    forall k | 0 <= k < 64
      ensures Bit(WordOr(w, Shl(1, b)), k) == (Bit(w, k) || k == b)
      ensures Bit(And(w, Not(Shl(1, b))), k) == (Bit(w, k) && k != b)
    {
      SetBitInWord(w, b, k);
    }
    ws[p / 64] := if on then WordOr(w, Shl(1, b)) else And(w, Not(Shl(1, b)));
  }

  // ---- Moving a run of bits up one slot ------------------------------------

  /** The bit-by-bit move, highest first: bit `from + count - 1` to the slot
      above it, then the one below, down to `from`. */
  function MoveUp(bits: seq<bool>, from: nat, count: nat): seq<bool>
    requires from < |bits| && count < |bits|
    decreases count
  {
    if count == 0 then bits
    else
      var src, dst := Slot(from, count - 1, |bits|), Slot(from, count, |bits|);
      MoveUp(bits[dst := bits[src]], from, count - 1)
  }

  /** Where the bit in slot `p` comes from when the bits at distances
      `low .. high - 1` from `from` each move up one slot. */
  function Moved(p: nat, from: nat, low: nat, high: nat, cap: nat): (s: nat)
    requires from < cap && p < cap
    ensures s < cap
  {
    var d := Distance(from, p, cap);
    if low < d <= high then Slot(from, d - 1, cap) else p
  }

  function Source(p: nat, from: nat, count: nat, cap: nat): (s: nat)
    requires from < cap && p < cap
    ensures s < cap
  {
    Moved(p, from, 0, count, cap)
  }

  lemma {:induction false} MoveUpBits(bits: seq<bool>, from: nat, count: nat, p: nat)
    requires from < |bits| && count < |bits| && p < |bits|
    ensures |MoveUp(bits, from, count)| == |bits|
    ensures MoveUp(bits, from, count)[p] == bits[Source(p, from, count, |bits|)]
    decreases count
  {
    if count > 0 {
      var src, dst := Slot(from, count - 1, |bits|), Slot(from, count, |bits|);
      MoveUpBits(bits[dst := bits[src]], from, count - 1, p);
    }
  }

  /** The `n` bits of `w` from `lo` up, as the shift reads them. */
  function Field(w: Word, lo: nat, n: nat): Word {
    And(Shr(w, lo), LowMask(n))
  }

  lemma FieldBit(w: Word, lo: nat, n: nat, k: nat)
    requires k < 64
    ensures Bit(Field(w, lo, n), k) == (k < n && Bit(w, lo + k))
  {
    AndBit(Shr(w, lo), LowMask(n), k);
    ShrBit(w, lo, k);
    LowMaskBit(n, k);
  }

  /** `w` with its bits from `at` to `at + n - 1` replaced by the low bits of `src`. */
  function Place(w: Word, src: Word, at: nat, n: nat): Word {
    var mask := Shl(LowMask(n), at);
    WordOr(And(w, Not(mask)), And(Shl(And(src, LowMask(n)), at), mask))
  }

  /** `|` on words. */
  function WordOr(x: Word, y: Word): Word {
    Pow2Word();
    OrBound(x, y, 64);
    Or(x, y)
  }

  lemma PlaceBit(w: Word, src: Word, at: nat, n: nat, k: nat)
    requires k < 64
    ensures Bit(Place(w, src, at, n), k) ==
            if at <= k < at + n then Bit(src, k - at) else Bit(w, k)
  {
    var mask := Shl(LowMask(n), at);
    var low := And(src, LowMask(n));
    OrBit(And(w, Not(mask)), And(Shl(low, at), mask), k);
    AndBit(w, Not(mask), k);
    AndBit(Shl(low, at), mask, k);
    NotBit(mask, k);
    ShlBit(LowMask(n), at, k);
    ShlBit(low, at, k);
    if k >= at {
      LowMaskBit(n, k - at);
      AndBit(src, LowMask(n), k - at);
    }
  }

  /** Bit 0 of `w` replaced by the top bit of an `n`-bit field. */
  function Carry(w: Word, src: Word, n: nat): Word
    requires n > 0
  {
    WordOr(And(w, Not(1)), Shr(src, n - 1))
  }

  lemma CarryBit(w: Word, v: Word, lo: nat, n: nat, k: nat)
    requires 0 < n && lo + n == 64 && k < 64
    ensures Bit(Carry(w, Field(v, lo, n), n), k) == if k == 0 then Bit(v, 63) else Bit(w, k)
  {
    var src := Field(v, lo, n);
    OrBit(And(w, Not(1)), Shr(src, n - 1), k);
    AndBit(w, Not(1), k);
    NotBit(1, k);
    OneBit(k);
    ShrBit(src, n - 1, k);
    if n - 1 + k < 64 {
      FieldBit(v, lo, n, n - 1 + k);
    } else {
      WordTop(src, n - 1 + k);
    }
  }

  /** A word has no bits past the 64th. */
  lemma WordTop(w: Word, k: nat)
    requires k >= 64
    ensures !Bit(w, k)
  {
    Pow2Word();
    SmallTop(w, 64, k);
  }

  lemma {:induction false} SmallTop(x: nat, n: nat, k: nat)
    requires x < Pow2(n) && n <= k
    ensures !Bit(x, k)
    decreases n
  {
    if n == 0 {
      ZeroBit(k);
    } else {
      SmallTop(x / 2, n - 1, k - 1);
    }
  }

  /** How many bits one turn of the loop moves: the run below the highest
      remaining source bit that lies in its word. */
  function RunLength(hi: nat, left: nat): nat {
    if left < hi % 64 + 1 then left else hi % 64 + 1
  }

  function NextWord(w: nat, cap: nat): nat {
    if w + 1 == cap / 64 then 0 else w + 1
  }

  /** One turn of the word-at-a-time shift with `left` bits still to move. */
  function ShiftTurn(ws: seq<Word>, from: nat, left: nat, cap: nat): (r: seq<Word>)
    requires Sized(ws, cap) && from < cap && 0 < left < cap
    ensures |r| == |ws|
  {
    var hi := Slot(from, left - 1, cap);
    var w, top, n := hi / 64, hi % 64, RunLength(hi, left);
    var lo := top + 1 - n;
    var src := Field(ws[w], lo, n);
    var next := NextWord(w, cap);
    var ws1 := if top == 63 then ws[next := Carry(ws[next], src, n)] else ws;
    var stay := if top == 63 then n - 1 else n;
    if stay > 0 then ws1[w := Place(ws1[w], src, lo + 1, stay)] else ws1
  }

  /** Where the bit in slot `p` comes from in one turn: from the slot below in
      the word, or, for bit 0 of the next word, from bit 63. */
  function TurnSource(p: nat, from: nat, left: nat, cap: nat): (s: nat)
    requires 0 < cap && cap % 64 == 0 && from < cap && 0 < left < cap && p < cap
    ensures s < cap
  {
    var hi := Slot(from, left - 1, cap);
    var w, top, n := hi / 64, hi % 64, RunLength(hi, left);
    var stay := if top == 63 then n - 1 else n;
    if p / 64 == w && top + 2 - n <= p % 64 < top + 2 - n + stay then p - 1
    else if top == 63 && p == 64 * NextWord(w, cap) then hi
    else p
  }

  lemma CarryPhase(ws: seq<Word>, v: Word, next: nat, n: nat, p: nat)
    requires next < |ws| && 0 < n <= 64 && p < 64 * |ws|
    ensures BitAt(ws[next := Carry(ws[next], Field(v, 64 - n, n), n)], p) ==
            if p == 64 * next then Bit(v, 63) else BitAt(ws, p)
  {
    CarryBit(ws[next], v, 64 - n, n, p % 64);
  }

  lemma PlacePhase(ws: seq<Word>, w: nat, v: Word, lo: nat, n: nat, stay: nat, p: nat)
    requires w < |ws| && p < 64 * |ws| && stay <= n && lo + stay < 64
    ensures BitAt(ws[w := Place(ws[w], Field(v, lo, n), lo + 1, stay)], p) ==
            if p / 64 == w && lo < p % 64 <= lo + stay then Bit(v, p % 64 - 1) else BitAt(ws, p)
  {
    var k := p % 64;
    PlaceBit(ws[w], Field(v, lo, n), lo + 1, stay, k);
    if lo < k {
      FieldBit(v, lo, n, k - lo - 1);
    }
  }

  lemma TurnInsideWord(ws: seq<Word>, from: nat, left: nat, cap: nat, p: nat)
    requires Sized(ws, cap) && from < cap && 0 < left < cap && p < cap
    requires Slot(from, left - 1, cap) % 64 < 63
    ensures BitAt(ShiftTurn(ws, from, left, cap), p) == BitAt(ws, TurnSource(p, from, left, cap))
  {
    hide Carry, Place, Field, Bit;
    var hi := Slot(from, left - 1, cap);
    var w, n := hi / 64, RunLength(hi, left);
    PlacePhase(ws, w, ws[w], hi % 64 + 1 - n, n, n, p);
  }

  lemma TurnAcrossWords(ws: seq<Word>, from: nat, left: nat, cap: nat, p: nat)
    requires Sized(ws, cap) && from < cap && 0 < left < cap && p < cap
    requires Slot(from, left - 1, cap) % 64 == 63
    ensures BitAt(ShiftTurn(ws, from, left, cap), p) == BitAt(ws, TurnSource(p, from, left, cap))
  {
    hide Carry, Place, Field, Bit;
    var hi := Slot(from, left - 1, cap);
    var w, n, next := hi / 64, RunLength(hi, left), NextWord(hi / 64, cap);
    var ws1 := ws[next := Carry(ws[next], Field(ws[w], 64 - n, n), n)];
    CarryPhase(ws, ws[w], next, n, p);
    if n > 1 {
      PlacePhase(ws1, w, ws[w], 64 - n, n, n - 1, p);
    }
  }

  lemma TurnBits(ws: seq<Word>, from: nat, left: nat, cap: nat, p: nat)
    requires Sized(ws, cap) && from < cap && 0 < left < cap && p < cap
    ensures BitAt(ShiftTurn(ws, from, left, cap), p) == BitAt(ws, TurnSource(p, from, left, cap))
  {
    if Slot(from, left - 1, cap) % 64 == 63 {
      TurnAcrossWords(ws, from, left, cap, p);
    } else {
      TurnInsideWord(ws, from, left, cap, p);
    }
  }

  /** In ring terms, a turn moves the bits at distances `left - n .. left - 1`. */
  lemma TurnGeometry(p: nat, from: nat, left: nat, cap: nat)
    requires 0 < cap && cap % 64 == 0 && from < cap && 0 < left < cap && p < cap
    ensures var n := RunLength(Slot(from, left - 1, cap), left);
            TurnSource(p, from, left, cap) == Moved(p, from, left - n, left, cap)
  {
  }

  /** `now` is `was` with the bits at distances `left .. count - 1` moved up. */
  ghost predicate MovedFrom(now: seq<Word>, was: seq<Word>, from: nat, left: nat, count: nat, cap: nat)
    requires Sized(now, cap) && Sized(was, cap) && from < cap
  {
    forall p :: 0 <= p < cap ==> BitAt(now, p) == BitAt(was, Moved(p, from, left, count, cap))
  }

  lemma TurnMoves(was: seq<Word>, now: seq<Word>, from: nat, left: nat, count: nat, cap: nat)
    requires Sized(now, cap) && Sized(was, cap) && from < cap && 0 < left <= count < cap
    requires MovedFrom(now, was, from, left, count, cap)
    ensures var n := RunLength(Slot(from, left - 1, cap), left);
            MovedFrom(ShiftTurn(now, from, left, cap), was, from, left - n, count, cap)
  {
    var n := RunLength(Slot(from, left - 1, cap), left);
    var next := ShiftTurn(now, from, left, cap);
    forall p | 0 <= p < cap
      ensures BitAt(next, p) == BitAt(was, Moved(p, from, left - n, count, cap))
    {
      var s := Moved(p, from, left - n, left, cap);
      TurnBits(now, from, left, cap, p);
      TurnGeometry(p, from, left, cap);
      assert BitAt(now, s) == BitAt(was, Moved(s, from, left, count, cap));
      MovedTwice(p, from, left - n, left, count, cap);
    }
  }

  lemma MovedTwice(p: nat, from: nat, low: nat, mid: nat, high: nat, cap: nat)
    requires from < cap && p < cap && low <= mid <= high
    ensures Moved(Moved(p, from, low, mid, cap), from, mid, high, cap) ==
            Moved(p, from, low, high, cap)
  {
  }

  /** One turn of the loop, in place. */
  method TurnOnce(ws: array<Word>, from: nat, left: nat, cap: nat) returns (n: nat)
    requires Sized(ws[..], cap) && from < cap && 0 < left < cap
    modifies ws
    ensures ws[..] == ShiftTurn(old(ws[..]), from, left, cap)
    ensures n == RunLength(Slot(from, left - 1, cap), left)
  {
    hide Carry, Place, Field;
    var hi := Slot(from, left - 1, cap);
    var w, top := hi / 64, hi % 64;
    n := if left < top + 1 then left else top + 1;
    var lo := top + 1 - n;
    var src := Field(ws[w], lo, n);
    var stay := n;
    if top == 63 {
      var next := NextWord(w, cap);
      ws[next] := Carry(ws[next], src, n);
      stay := n - 1;
    }
    if stay > 0 {
      ws[w] := Place(ws[w], src, lo + 1, stay);
    }
  }

  /** The word-at-a-time shift agrees with the bit-by-bit move, for every start
      slot, every count below the capacity, and across the ring's wrap. */
  method ShiftUp(ws: array<Word>, from: nat, count: nat, cap: nat)
    requires Sized(ws[..], cap) && from < cap && count < cap
    modifies ws
    ensures MovedFrom(ws[..], old(ws[..]), from, 0, count, cap)
  {
    var left: nat := count;
    while left > 0
      invariant left <= count
      invariant MovedFrom(ws[..], old(ws[..]), from, left, count, cap)
    {
      TurnMoves(old(ws[..]), ws[..], from, left, count, cap);
      var n := TurnOnce(ws, from, left, cap);
      left := left - n;
    }
  }

  /** The ring's bits, slot by slot. */
  function Slots(ws: seq<Word>, cap: nat): (bits: seq<bool>)
    requires Sized(ws, cap)
    ensures |bits| == cap
  {
    seq(cap, p requires 0 <= p < cap => BitAt(ws, p))
  }

  /** What `ShiftUp` leaves is what moving the bits one by one leaves. */
  lemma ShiftIsBitByBit(now: seq<Word>, was: seq<Word>, from: nat, count: nat, cap: nat)
    requires Sized(now, cap) && Sized(was, cap) && from < cap && count < cap
    ensures MovedFrom(now, was, from, 0, count, cap) <==>
            Slots(now, cap) == MoveUp(Slots(was, cap), from, count)
  {
    var want := MoveUp(Slots(was, cap), from, count);
    MoveUpBits(Slots(was, cap), from, count, 0);
    forall p | 0 <= p < cap
      ensures want[p] == BitAt(was, Moved(p, from, 0, count, cap))
    {
      MoveUpBits(Slots(was, cap), from, count, p);
    }
    assert forall p :: 0 <= p < cap ==> Slots(now, cap)[p] == BitAt(now, p);
  }

  // ---- Searching for a clear bit -------------------------------------------

  /** Bit `k` of the inverted word from `bit` up is set iff slot `bit + k` is clear. */
  lemma ClearBit(w: Word, bit: nat, k: nat)
    requires bit + k < 64
    ensures Bit(Shr(Not(w), bit), k) == !Bit(w, bit + k)
  {
    ShrBit(Not(w), bit, k);
    NotBit(w, bit + k);
  }

  /** Every entry from `lo` to `hi - 1` has its bit set. */
  ghost predicate AllSet(ws: seq<Word>, head: nat, lo: nat, hi: nat, cap: nat)
    requires Sized(ws, cap) && head < cap && hi <= cap
  {
    forall k :: lo <= k < hi ==> BitAt(ws, Slot(head, k, cap))
  }

  /** Slots the scan covers with the word that entry `i` lies in. */
  function WordSpan(head: nat, i: nat, len: nat, cap: nat): (n: nat)
    requires head < cap && i < len <= cap
    ensures 0 < n <= 64 && i + n <= len
  {
    var room := 64 - Slot(head, i, cap) % 64;
    if room < len - i then room else len - i
  }

  lemma SpanSlot(head: nat, i: nat, len: nat, cap: nat, x: nat)
    requires head < cap && i < len <= cap && cap % 64 == 0 && x < WordSpan(head, i, len, cap)
    ensures Slot(head, i + x, cap) == Slot(head, i, cap) + x
    ensures Slot(head, i + x, cap) / 64 == Slot(head, i, cap) / 64
    ensures Slot(head, i + x, cap) % 64 == Slot(head, i, cap) % 64 + x
  {
  }

  lemma ScanBit(ws: seq<Word>, head: nat, i: nat, len: nat, cap: nat, x: nat)
    requires Sized(ws, cap) && head < cap && i < len <= cap && x < WordSpan(head, i, len, cap)
    ensures var p := Slot(head, i, cap);
            BitAt(ws, Slot(head, i + x, cap)) == !Bit(Shr(Not(ws[p / 64]), p % 64), x)
  {
    var p := Slot(head, i, cap);
    SpanSlot(head, i, len, cap, x);
    ClearBit(ws[p / 64], p % 64, x);
  }

  /** What the trailing zeros of the inverted word tell about the entries from `i` on. */
  lemma ScanWord(ws: seq<Word>, head: nat, i: nat, len: nat, cap: nat)
    requires Sized(ws, cap) && head < cap && i < len <= cap
    ensures var p := Slot(head, i, cap);
            var k := TrailingZeros(Shr(Not(ws[p / 64]), p % 64));
            var span := WordSpan(head, i, len, cap);
            if k < span then
              AllSet(ws, head, i, i + k, cap) && !BitAt(ws, Slot(head, i + k, cap))
            else AllSet(ws, head, i, i + span, cap)
  {
    var p := Slot(head, i, cap);
    var k := TrailingZeros(Shr(Not(ws[p / 64]), p % 64));
    var span := WordSpan(head, i, len, cap);
    forall x | i <= x < i + span && x < i + k ensures BitAt(ws, Slot(head, x, cap)) {
      ScanBit(ws, head, i, len, cap, x - i);
    }
    if k < span {
      ScanBit(ws, head, i, len, cap, k);
    }
  }

  /** `next_unsacked`: the first of the `len` ring entries from `from` on whose
      bit is clear, or `len`, visiting one word per 64 slots. */
  method NextClear(ws: array<Word>, head: nat, len: nat, from: nat, cap: nat) returns (j: nat)
    requires Sized(ws[..], cap) && head < cap && len <= cap
    ensures if from <= len then from <= j else j == len
    ensures j <= len && AllSet(ws[..], head, from, j, cap)
    ensures j < len ==> !BitAt(ws[..], Slot(head, j, cap))
  {
    var i := from;
    while i < len
      invariant from <= i && (from <= len ==> i <= len)
      invariant i <= len ==> AllSet(ws[..], head, from, i, cap)
    {
      var p := Slot(head, i, cap);
      var clear := Shr(Not(ws[p / 64]), p % 64);
      var span := WordSpan(head, i, len, cap);
      var k := TrailingZeros(clear);
      ScanWord(ws[..], head, i, len, cap);
      if k < span {
        return i + k;
      }
      i := i + span;
    }
    j := len;
  }
}
