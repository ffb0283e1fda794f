/** The byte ring: a power-of-two array with wrapping 64-bit cursors, bytes
    parked in its free part without being readable, and a commit that makes
    them so. */
module Ring {
  import opened Serial
  import opened Circular

  const USIZE: int := 0x1_0000_0000_0000_0000

  // ---- The ring's storage as a value ---------------------------------------

  /** The byte stored for stream offset `p`. */
  function At(buf: seq<u8>, p: nat): u8
    requires |buf| > 0
  {
    buf[p % |buf|]
  }

  /** `buf` with `src` written from stream offset `at` on, around the ring. */
  function Place(buf: seq<u8>, at: nat, src: seq<u8>): (r: seq<u8>)
    requires |buf| > 0
    ensures |r| == |buf|
  {
    seq(|buf|, j requires 0 <= j < |buf| =>
      var d := Distance(at % |buf|, j, |buf|);
      if d < |src| then src[d] else buf[j])
  }

  /** A placed byte is found at its offset. */
  lemma PlaceIn(buf: seq<u8>, at: nat, src: seq<u8>, k: nat)
    requires |src| <= |buf| && k < |src|
    ensures At(Place(buf, at, src), at + k) == src[k]
  {
    ModAdd(at, k, |buf|);
  }

  /** Offsets less than a turn past the placed bytes keep theirs. */
  lemma PlaceOut(buf: seq<u8>, at: nat, src: seq<u8>, p: nat)
    requires |buf| > 0 && at + |src| <= p < at + |buf|
    ensures At(Place(buf, at, src), p) == At(buf, p)
  {
    ModAdd(at, p - at, |buf|);
  }

  /** The readable bytes from offset `from`, `count` of them. */
  function Window(buf: seq<u8>, from: nat, count: nat): (r: seq<u8>)
    requires |buf| > 0
    ensures |r| == count
    ensures forall k :: 0 <= k < count ==> r[k] == At(buf, from + k)
  {
    seq<u8>(count, k requires 0 <= k < count => At(buf, from + k))
  }

  lemma WindowSlice(buf: seq<u8>, from: nat, count: nat, offset: nat, k: nat)
    requires |buf| > 0 && offset + k <= count
    ensures Window(buf, from, count)[offset..offset + k] == Window(buf, from + offset, k)
  {
    hide Window, At;
  }

  /** Copying in two runs, to the array's end and on from its start, places `src`. */
  lemma TwoRuns(was: seq<u8>, now: seq<u8>, start: nat, src: seq<u8>)
    requires |was| == |now| > 0 && start < |was| && |src| <= |was|
    requires var first := Min(|src|, |was| - start);
             forall j :: 0 <= j < |was| ==>
               now[j] == if start <= j < start + first then src[j - start]
                         else if j < |src| - first then src[first + j]
                         else was[j]
    ensures now == Place(was, start, src)
  {
    SlotIsMod(start, 0, |was|);
  }

  lemma PlaceMod(buf: seq<u8>, at: nat, src: seq<u8>)
    requires |buf| > 0
    ensures Place(buf, at % |buf|, src) == Place(buf, at, src)
  {
    SlotIsMod(at % |buf|, 0, |buf|);
  }

  /** Reading in two runs gives the window. */
  lemma TwoReads(buf: seq<u8>, from: nat, count: nat)
    requires 0 < |buf| && count <= |buf|
    ensures var start := from % |buf|;
            var first := Min(count, |buf| - start);
            buf[start..start + first] + buf[..count - first] == Window(buf, from, count)
  {
    var start := from % |buf|;
    var first := Min(count, |buf| - start);
    var out := buf[start..start + first] + buf[..count - first];
    forall k | 0 <= k < count ensures out[k] == At(buf, from + k) {
      ModAdd(from, k, |buf|);
    }
  }

  class Buffer {
    const n: nat
    const buf: array<u8>
    /** Read and write cursors, wrapping at the word size. */
    var head: u64
    var tail: u64
    var len: nat

    /** Stream offset of the read cursor, and how often the ring goes into the word size. */
    ghost var read: nat
    ghost const turns: nat

    ghost predicate Valid()
      reads this
    {
      && n > 0 && turns > 0 && n * turns == USIZE && buf.Length == n && len <= n
      && head == read % USIZE && tail == (read + len) % USIZE
    }

    /** Bytes readable now. */
    ghost function Contents(): seq<u8>
      requires Valid()
      reads this, buf
    {
      Window(buf[..], read, len)
    }

    /** Capacities are powers of two: they divide the word size. */
    constructor (n: nat, ghost turns: nat)
      requires n > 0 && turns > 0 && n * turns == USIZE
      ensures Valid() && fresh(buf) && this.n == n && read == 0 && len == 0
    {
      this.n, this.turns := n, turns;
      buf := new u8[n](_ => 0);
      head, tail, len, read := 0, 0, 0, 0;
    }

    function Free(): nat
      requires Valid()
      reads this
    {
      n - len
    }

    /** Copy `src` to the slots from stream offset `at` on. */
    method CopyIn(cursor: u64, src: seq<u8>, ghost at: nat)
      requires Valid() && |src| <= n && cursor == at % USIZE
      modifies buf
      ensures buf[..] == Place(old(buf[..]), at, src)
    {
      ghost var was := buf[..];
      ModOfMod(at, n, turns);
      var start := cursor % n;
      var first := Min(|src|, n - start);
      forall k | start <= k < start + first {
        buf[k] := src[k - start];
      }
      forall k | 0 <= k < |src| - first {
        buf[k] := src[first + k];
      }
      TwoRuns(was, buf[..], start, src);
      PlaceMod(was, at, src);
    }

    /** `write`: append what fits. */
    method Write(src: seq<u8>) returns (k: nat)
      requires Valid()
      modifies this`tail, this`len, buf
      ensures Valid() && k == Min(|src|, n - old(len)) && len == old(len) + k
      ensures buf[..] == Place(old(buf[..]), read + old(len), src[..k])
    {
      hide Place;
      k := Min(|src|, Free());
      CopyIn(tail, src[..k], read + len);
      Wrap(read + len, k);
      tail := (tail + k) % USIZE;
      len := len + k;
    }

    /** `write_at`: park bytes `offset` past the write cursor, clipped to the free part. */
    method WriteAt(offset: nat, src: seq<u8>) returns (k: nat)
      requires Valid()
      modifies buf
      ensures Valid()
      ensures k == if offset >= n - len then 0 else Min(|src|, n - len - offset)
      ensures buf[..] == if k == 0 then old(buf[..]) else Place(old(buf[..]), read + len + offset, src[..k])
    {
      hide Place;
      if offset >= Free() {
        return 0;
      }
      k := Min(|src|, Free() - offset);
      if k > 0 {
        Wrap(read + len, offset);
        CopyIn((tail + offset) % USIZE, src[..k], read + len + offset);
      }
    }

    /** `commit`: make the next `count` parked bytes readable, clipped to the free part. */
    method Commit(count: nat) returns (k: nat)
      requires Valid()
      modifies this`tail, this`len
      ensures Valid() && k == Min(count, n - old(len)) && len == old(len) + k
    {
      k := Min(count, Free());
      Wrap(read + len, k);
      tail := (tail + k) % USIZE;
      len := len + k;
    }

    /** `peek_at`: copy out up to `want` bytes from `offset` on. */
    method PeekAt(offset: nat, want: nat) returns (out: seq<u8>)
      requires Valid()
      ensures out == if offset >= len then [] else Contents()[offset..offset + Min(want, len - offset)]
    {
      if offset >= len {
        return [];
      }
      var k := Min(want, len - offset);
      Wrap(read, offset);
      out := CopyOut((head + offset) % USIZE, k, read + offset);
      WindowSlice(buf[..], read, len, offset, k);
    }

    /** Copy out `k` bytes from stream offset `at` on, in two runs. */
    method CopyOut(cursor: u64, k: nat, ghost at: nat) returns (out: seq<u8>)
      requires Valid() && k <= n && cursor == at % USIZE
      ensures out == Window(buf[..], at, k)
    {
      hide Window;
      ModOfMod(at, n, turns);
      var start := cursor % n;
      var first := Min(k, n - start);
      TwoReads(buf[..], at, k);
      out := buf[start..start + first] + buf[..k - first];
    }

    /** `consume`: drop up to `count` bytes from the head. */
    method Consume(count: nat)
      requires Valid()
      modifies this`head, this`len, this`read
      ensures Valid() && read == old(read) + Min(count, old(len))
      ensures read + len == old(read + len)
    {
      var k := Min(count, len);
      Wrap(read, k);
      head := (head + k) % USIZE;
      len := len - k;
      read := read + k;
    }

    /** `read`: copy out up to `want` bytes and drop them. */
    method Read(want: nat) returns (out: seq<u8>)
      requires Valid()
      modifies this`head, this`len, this`read
      ensures Valid() && out == old(Contents())[..Min(want, old(len))]
      ensures read == old(read) + |out| && read + len == old(read + len)
    {
      out := PeekAt(0, want);
      Consume(|out|);
    }
  }

  /** Cursors wrap at the word size without losing their place. */
  lemma Wrap(x: nat, k: nat)
    ensures (x % USIZE + k) % USIZE == (x + k) % USIZE
  {
  }
}
