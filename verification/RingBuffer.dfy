/** The ring allocator `HRingBuf`.

    The buffer stores only `head`, `tail` and `size`. Where the allocator wrapped, and how many
    bytes it skipped at the end of the buffer, is never stored: `Free` infers it from the length
    it is given. A ghost layout records both, so that the inference can be proved right. */
module RingBuffer {
  import opened Common

  datatype Block = Block(start: nat, len: nat)

  /** What the fields do not say: the live blocks, oldest first; how many of them lie in the
      older run that ends before the wrap; and the bytes skipped at the end of the buffer. */
  datatype Layout = Layout(blocks: seq<Block>, cut: nat, gap: nat, wrapped: bool)

  function Total(bs: seq<Block>): nat
  {
    if bs == [] then 0 else bs[0].len + Total(bs[1..])
  }

  /** The blocks lie end to end and fill exactly `[from, to)`. */
  predicate Chain(bs: seq<Block>, from: nat, to: nat)
  {
    if bs == [] then from == to
    else bs[0].start == from && Chain(bs[1..], from + bs[0].len, to)
  }

  ghost predicate WellLaid(l: Layout, cap: nat, head: nat, tail: nat, size: nat)
  {
    && size == Total(l.blocks)
    && l.cut <= |l.blocks|
    && (cap > 0 ==> head < cap && tail < cap)
    && (cap == 0 ==> head == tail == 0)
    && (forall i :: 0 <= i < |l.blocks| && cap > 0 ==> l.blocks[i].start < cap)
    && if l.wrapped then
         && tail <= head
         && l.gap <= cap - head
         && size > 0
         && Chain(l.blocks[..l.cut], head, cap - l.gap)
         && Chain(l.blocks[l.cut..], 0, tail)
         && (l.gap > 0 ==> l.cut < |l.blocks| && l.blocks[l.cut].len > l.gap)
       else
         && l.cut == |l.blocks|
         && l.gap == 0
         && Chain(l.blocks, head, tail)
  }

  ghost predicate Occupied(bs: seq<Block>, p: int)
  {
    exists i :: 0 <= i < |bs| && bs[i].start <= p < bs[i].start + bs[i].len
  }

  /** `n` bytes from `lo` on lie in the buffer and belong to no live block. */
  ghost predicate FreeSpan(l: Layout, cap: nat, lo: nat, n: nat)
  {
    lo + n <= cap && forall p :: lo <= p < lo + n ==> !Occupied(l.blocks, p)
  }

  /** The allocator returns NULL. */
  predicate Refuses(cap: nat, head: nat, tail: nat, size: nat, len: nat)
  {
    if head < tail || size == 0 then cap - tail < len && head < len else head - tail < len
  }

  /** Total of a chain is the length it spans, and every block sits inside the span. */
  lemma {:induction false} ChainSpan(bs: seq<Block>, from: nat, to: nat)
    requires Chain(bs, from, to)
    ensures from + Total(bs) == to
    ensures forall i :: 0 <= i < |bs| ==> from <= bs[i].start && bs[i].start + bs[i].len <= to
  {
    if bs != [] {
      ChainSpan(bs[1..], from + bs[0].len, to);
      assert forall i :: 1 <= i < |bs| ==> bs[i] == bs[1..][i - 1];
    }
  }

  lemma {:induction false} ChainOrdered(bs: seq<Block>, from: nat, to: nat)
    requires Chain(bs, from, to)
    ensures forall i, j :: 0 <= i < j < |bs| ==> bs[i].start + bs[i].len <= bs[j].start
  {
    if bs != [] {
      ChainOrdered(bs[1..], from + bs[0].len, to);
      ChainSpan(bs[1..], from + bs[0].len, to);
      forall i, j | 0 <= i < j < |bs| ensures bs[i].start + bs[i].len <= bs[j].start {
        assert bs[j] == bs[1..][j - 1];
        if i > 0 { assert bs[i] == bs[1..][i - 1]; }
      }
    }
  }

  lemma {:induction false} ChainAppend(bs: seq<Block>, from: nat, to: nat, len: nat)
    requires Chain(bs, from, to)
    ensures Chain(bs + [Block(to, len)], from, to + len)
    ensures Total(bs + [Block(to, len)]) == Total(bs) + len
  {
    if bs == [] {
      assert bs + [Block(to, len)] == [Block(to, len)];
    } else {
      assert (bs + [Block(to, len)])[1..] == bs[1..] + [Block(to, len)];
      ChainAppend(bs[1..], from + bs[0].len, to, len);
    }
  }

  lemma {:induction false} ChainCovers(bs: seq<Block>, from: nat, to: nat, p: int)
    requires Chain(bs, from, to)
    ensures Occupied(bs, p) <==> from <= p < to
  {
    ChainSpan(bs, from, to);
    if from <= p < to {
      if p < from + bs[0].len {
        assert bs[0].start <= p < bs[0].start + bs[0].len;
      } else {
        ChainCovers(bs[1..], from + bs[0].len, to, p);
        var i :| 0 <= i < |bs[1..]| && bs[1..][i].start <= p < bs[1..][i].start + bs[1..][i].len;
        assert bs[i + 1] == bs[1..][i];
      }
    }
  }

  lemma {:induction false} TotalSplit(a: seq<Block>, b: seq<Block>)
    ensures Total(a + b) == Total(a) + Total(b)
  {
    if a == [] {
      assert a + b == b;
    } else {
      assert (a + b)[1..] == a[1..] + b;
      TotalSplit(a[1..], b);
    }
  }

  /** The bytes of the two runs add up, so the skipped bytes can be told from the fields. */
  lemma GapFromFields(l: Layout, cap: nat, head: nat, tail: nat, size: nat)
    requires WellLaid(l, cap, head, tail, size)
    ensures l.wrapped <==> size > 0 && tail <= head
    ensures l.wrapped ==> l.gap == cap - size - (head - tail)
    ensures size == 0 ==> head == tail
    ensures if cap == 0 then head == size == 0 else head < cap
    ensures Total(l.blocks) == size <= cap && head <= cap && tail <= cap
  {
    if l.wrapped {
      ChainSpan(l.blocks[..l.cut], head, cap - l.gap);
      ChainSpan(l.blocks[l.cut..], 0, tail);
      TotalSplit(l.blocks[..l.cut], l.blocks[l.cut..]);
      assert l.blocks[..l.cut] + l.blocks[l.cut..] == l.blocks;
    } else {
      ChainSpan(l.blocks, head, tail);
    }
  }

  lemma OccupiedExactly(l: Layout, cap: nat, head: nat, tail: nat, size: nat, p: int)
    requires WellLaid(l, cap, head, tail, size)
    ensures Occupied(l.blocks, p) <==>
            if l.wrapped then 0 <= p < tail || head <= p < cap - l.gap else head <= p < tail
  {
    if l.wrapped {
      var older, newer := l.blocks[..l.cut], l.blocks[l.cut..];
      ChainCovers(older, head, cap - l.gap, p);
      ChainCovers(newer, 0, tail, p);
      if Occupied(older, p) {
        var i :| 0 <= i < |older| && older[i].start <= p < older[i].start + older[i].len;
        assert l.blocks[i] == older[i];
      }
      if Occupied(newer, p) {
        var i :| 0 <= i < |newer| && newer[i].start <= p < newer[i].start + newer[i].len;
        assert l.blocks[l.cut + i] == newer[i];
      }
      if Occupied(l.blocks, p) {
        var i :| 0 <= i < |l.blocks| && l.blocks[i].start <= p < l.blocks[i].start + l.blocks[i].len;
        assert if i < l.cut then older[i] == l.blocks[i] else newer[i - l.cut] == l.blocks[i];
      }
    } else {
      ChainCovers(l.blocks, head, tail, p);
    }
  }

  /** An ordered run from `head` on and an ordered run that ends at `tail` share no byte. */
  lemma RunsApart(older: seq<Block>, newer: seq<Block>, head: nat, tail: nat, cap: nat)
    requires tail <= head
    requires forall i :: 0 <= i < |older| ==> head <= older[i].start && older[i].start + older[i].len <= cap
    requires forall i :: 0 <= i < |newer| ==> newer[i].start + newer[i].len <= tail
    requires forall i, j :: 0 <= i < j < |older| ==> older[i].start + older[i].len <= older[j].start
    requires forall i, j :: 0 <= i < j < |newer| ==> newer[i].start + newer[i].len <= newer[j].start
    requires tail <= cap
    ensures var bs := older + newer;
            && (forall i :: 0 <= i < |bs| ==> bs[i].start + bs[i].len <= cap)
            && (forall i, j :: 0 <= i < j < |bs| ==>
                  bs[i].start + bs[i].len <= bs[j].start || bs[j].start + bs[j].len <= bs[i].start)
  {
  }

  /** Live blocks lie inside the buffer and no two of them share a byte. */
  lemma LiveBlocksDisjoint(l: Layout, cap: nat, head: nat, tail: nat, size: nat)
    requires WellLaid(l, cap, head, tail, size)
    ensures forall i :: 0 <= i < |l.blocks| ==> l.blocks[i].start + l.blocks[i].len <= cap
    ensures forall i, j :: 0 <= i < j < |l.blocks| ==>
                             || l.blocks[i].start + l.blocks[i].len <= l.blocks[j].start
                             || l.blocks[j].start + l.blocks[j].len <= l.blocks[i].start
  {
    if l.wrapped {
      var older, newer := l.blocks[..l.cut], l.blocks[l.cut..];
      ChainSpan(older, head, cap - l.gap);
      ChainSpan(newer, 0, tail);
      ChainOrdered(older, head, cap - l.gap);
      ChainOrdered(newer, 0, tail);
      assert tail <= head && older + newer == l.blocks;
      hide WellLaid, Chain, Total;
      RunsApart(older, newer, head, tail, cap);
    } else {
      ChainSpan(l.blocks, head, tail);
      ChainOrdered(l.blocks, head, tail);
      assert tail <= cap;
      hide WellLaid, Chain, Total;
    }
  }

  lemma BlocksInside(l: Layout, cap: nat, head: nat, tail: nat, size: nat)
    requires WellLaid(l, cap, head, tail, size)
    ensures forall i :: 0 <= i < |l.blocks| ==> l.blocks[i].start + l.blocks[i].len <= cap
  {
    hide WellLaid;
    LiveBlocksDisjoint(l, cap, head, tail, size);
  }

  /** The length of the longest free span, told from the fields. */
  function LongestFree(cap: nat, head: nat, tail: nat, size: nat): int
  {
    if size == 0 then cap
    else if head < tail then Max(head, cap - tail)
    else if size == tail then cap - tail
    else Max(head - tail, cap - size - (head - tail))
  }

  /** A span of `len` bytes is free somewhere exactly when `len` is at most `LongestFree`. */
  lemma FreeSpanExactly(l: Layout, cap: nat, head: nat, tail: nat, size: nat, len: nat)
    requires WellLaid(l, cap, head, tail, size) && len > 0
    ensures (exists lo :: FreeSpan(l, cap, lo, len)) <==> len <= LongestFree(cap, head, tail, size)
  {
    GapFromFields(l, cap, head, tail, size);
    forall p ensures Occupied(l.blocks, p) <==>
              if l.wrapped then 0 <= p < tail || head <= p < cap - l.gap else head <= p < tail {
      OccupiedExactly(l, cap, head, tail, size, p);
    }
    if len <= LongestFree(cap, head, tail, size) {
      var lo := if size == 0 then 0
                else if head < tail then (if len <= head then 0 else tail)
                else if size == tail || len <= head - tail then tail
                else cap - l.gap;
      assert FreeSpan(l, cap, lo, len);
    }
    forall lo: nat | FreeSpan(l, cap, lo, len) ensures len <= LongestFree(cap, head, tail, size) {
      assert !Occupied(l.blocks, lo) && !Occupied(l.blocks, lo + len - 1);
      if size > 0 && lo <= head < lo + len { assert !Occupied(l.blocks, head); }
      if tail > 0 && lo <= tail - 1 < lo + len { assert !Occupied(l.blocks, tail - 1); }
    }
  }

  /** NULL is returned although a free span fits exactly in two situations, both visible in the
      fields: the buffer is empty and both sides of the resting position are too short, or the
      live bytes wrap and only the skipped end (joined to the middle once the older run is gone)
      is long enough. In every other state, in particular in a non-empty unwrapped one, NULL
      means that no free span of that length exists. */
  lemma RefusalExact(l: Layout, cap: nat, head: nat, tail: nat, size: nat, len: nat)
    requires WellLaid(l, cap, head, tail, size) && len > 0
    ensures Refuses(cap, head, tail, size, len) && (exists lo :: FreeSpan(l, cap, lo, len)) <==>
            || (size == 0 && Max(head, cap - head) < len <= cap)
            || (size > 0 && tail <= head &&
                head - tail < len <= if size == tail then cap - tail else cap - size - (head - tail))
    ensures size > 0 && head < tail && Refuses(cap, head, tail, size, len) ==>
              !exists lo :: FreeSpan(l, cap, lo, len)
    ensures !Refuses(cap, head, tail, size, len) ==> exists lo :: FreeSpan(l, cap, lo, len)
  {
    GapFromFields(l, cap, head, tail, size);
    FreeSpanExactly(l, cap, head, tail, size, len);
  }

  /** The layout once `len` bytes at `at` have been handed out. */
  ghost function LayoutAfterAlloc(l: Layout, cap: nat, tail: nat, at: nat, len: nat): (r: Layout)
    requires tail <= cap
    ensures r.blocks == l.blocks + [Block(at, len)]
  {
    var blocks := l.blocks + [Block(at, len)];
    if l.wrapped then l.(blocks := blocks)
    else if at != tail then Layout(blocks, l.cut, cap - tail, true)
    else Layout(blocks, l.cut + 1, 0, cap > 0 && tail + len == cap)
  }

  lemma AllocAtTail(l: Layout, cap: nat, head: nat, tail: nat, size: nat, len: nat)
    requires WellLaid(l, cap, head, tail, size) && !l.wrapped && len <= cap - tail
    ensures WellLaid(LayoutAfterAlloc(l, cap, tail, tail, len), cap, head,
                     if tail + len == cap then 0 else tail + len, size + len)
  {
    var bs := l.blocks + [Block(tail, len)];
    ChainAppend(l.blocks, head, tail, len);
    ChainSpan(l.blocks, head, tail);
    assert bs[..|bs|] == bs && bs[|bs|..] == [];
  }

  lemma AllocAtStart(l: Layout, cap: nat, head: nat, tail: nat, size: nat, len: nat)
    requires WellLaid(l, cap, head, tail, size) && !l.wrapped && cap - tail < len <= head
    ensures WellLaid(LayoutAfterAlloc(l, cap, tail, 0, len), cap, head, len, size + len) && len < cap
  {
    var b := Block(0, len);
    TotalSplit(l.blocks, [b]);
    ChainSpan(l.blocks, head, tail);
    assert Chain([b], 0, len);
    assert (l.blocks + [b])[..l.cut] == l.blocks && (l.blocks + [b])[l.cut..] == [b];
  }

  lemma AllocInMiddle(l: Layout, cap: nat, head: nat, tail: nat, size: nat, len: nat)
    requires WellLaid(l, cap, head, tail, size) && l.wrapped && len <= head - tail
    ensures WellLaid(LayoutAfterAlloc(l, cap, tail, tail, len), cap, head, tail + len, size + len) && tail + len < cap
  {
    var b := Block(tail, len);
    GapFromFields(l, cap, head, tail, size);
    TotalSplit(l.blocks, [b]);
    ChainAppend(l.blocks[l.cut..], 0, tail, len);
    assert (l.blocks + [b])[..l.cut] == l.blocks[..l.cut];
    assert (l.blocks + [b])[l.cut..] == l.blocks[l.cut..] + [b];
  }

  /** Where the allocator puts a block that it does not refuse. */
  function PlaceOf(cap: nat, head: nat, tail: nat, size: nat, len: nat): nat
  {
    if (head < tail || size == 0) && cap - tail < len then 0 else tail
  }

  /** Whichever way a block is placed, the layout stays in order. */
  lemma AllocStep(l: Layout, cap: nat, head: nat, tail: nat, size: nat, len: nat)
    requires WellLaid(l, cap, head, tail, size) && !Refuses(cap, head, tail, size, len)
    ensures tail <= cap
    ensures var at := PlaceOf(cap, head, tail, size, len);
            && at + len <= cap
            && WellLaid(LayoutAfterAlloc(l, cap, tail, at, len), cap, head, if at + len == cap then 0 else at + len, size + len)
  {
    GapFromFields(l, cap, head, tail, size);
    hide WellLaid, LayoutAfterAlloc;
    if !l.wrapped {
      if len <= cap - tail {
        AllocAtTail(l, cap, head, tail, size, len);
      } else {
        AllocAtStart(l, cap, head, tail, size, len);
      }
    } else {
      AllocInMiddle(l, cap, head, tail, size, len);
    }
  }

  /** The layout once the oldest block is gone. */
  ghost function LayoutAfterFree(l: Layout, cap: nat, head: nat, len: nat): Layout
    requires l.blocks != []
  {
    var blocks := l.blocks[1..];
    if !l.wrapped || l.cut == 0 || head + len == cap then Layout(blocks, |blocks|, 0, false)
    else Layout(blocks, l.cut - 1, l.gap, true)
  }

  /** The inference `Free` makes: the freed length exceeds what is left up to the end of the
      buffer exactly when the oldest live block is the first one after the skipped end. */
  lemma WrapInference(l: Layout, cap: nat, head: nat, tail: nat, size: nat)
    requires WellLaid(l, cap, head, tail, size) && l.blocks != []
    ensures head <= cap
    ensures l.blocks[0].len > cap - head <==> l.wrapped && l.cut == 0
    ensures l.wrapped && l.cut == 0 ==> l.gap > 0 && l.blocks[0].start == 0 && head + l.gap == cap
    ensures !(l.wrapped && l.cut == 0) ==> l.blocks[0].start == head
  {
    GapFromFields(l, cap, head, tail, size);
    if l.wrapped {
      ChainSpan(l.blocks[..l.cut], head, cap - l.gap);
      if l.cut > 0 {
        assert l.blocks[0] == l.blocks[..l.cut][0];
      } else {
        assert l.blocks[..l.cut] == [] && l.blocks[l.cut..] == l.blocks;
      }
    } else {
      ChainSpan(l.blocks, head, tail);
    }
  }

  lemma FreeUnwrapped(l: Layout, cap: nat, head: nat, tail: nat, size: nat)
    requires WellLaid(l, cap, head, tail, size) && l.blocks != [] && !l.wrapped
    ensures l.blocks[0].len <= size && head + l.blocks[0].len <= tail
    ensures tail <= cap && (tail == cap ==> cap == 0)
    ensures WellLaid(Layout(l.blocks[1..], |l.blocks| - 1, 0, false), cap, head + l.blocks[0].len, tail,
                     size - l.blocks[0].len)
  {
    ChainSpan(l.blocks, head, tail);
  }

  lemma ChainTail(bs: seq<Block>, from: nat, to: nat)
    requires bs != [] && Chain(bs, from, to)
    ensures Chain(bs[1..], from + bs[0].len, to)
  {
  }

  /** Without the oldest block the older run is one block shorter and the newer run as it was. */
  lemma RunsAfterFree(bs: seq<Block>, cut: nat)
    requires 0 < cut <= |bs|
    ensures bs[1..][..cut - 1] == bs[..cut][1..] && bs[1..][cut - 1..] == bs[cut..] && bs[..cut][0] == bs[0]
  {
  }

  lemma ChainHead(bs: seq<Block>, cut: nat, from: nat, to: nat)
    requires 0 < cut <= |bs| && Chain(bs[..cut], from, to)
    ensures bs[0].start == from
  {
    assert bs[..cut][0] == bs[0];
  }

  /** When the older run has come to the end of the buffer nothing is left of it, since every block
      starts inside; the newer run is all. */
  lemma EndReached(bs: seq<Block>, cut: nat, cap: nat, tail: nat)
    requires cut <= |bs| && Chain(bs[..cut], cap, cap) && Chain(bs[cut..], 0, tail)
    requires bs != [] ==> bs[0].start < cap
    ensures Chain(bs, 0, tail)
  {
    if cut > 0 {
      ChainHead(bs, cut, cap, cap);
      assert false;
    }
    assert bs[0..] == bs;
  }

  lemma NewerReaches(bs: seq<Block>, cut: nat, tail: nat)
    requires cut < |bs| && Chain(bs[cut..], 0, tail)
    ensures bs[cut].len <= tail
  {
    ChainSpan(bs[cut..], 0, tail);
    assert bs[cut..][0] == bs[cut];
  }

  /** The older run without the oldest block begins where that block ends. */
  lemma OldestOfOlder(bs: seq<Block>, cut: nat, head: nat, to: nat, tail: nat)
    requires 0 < cut <= |bs| && Chain(bs[..cut], head, to) && Chain(bs[cut..], 0, tail)
    ensures var len, rest := bs[0].len, bs[1..];
            && Chain(rest[..cut - 1], head + len, to) && Chain(rest[cut - 1..], 0, tail) && head + len <= to
            && Total(bs) == len + Total(rest) && (cut == |bs| ==> tail == 0)
  {
    RunsAfterFree(bs, cut);
    ChainTail(bs[..cut], head, to);
    ChainSpan(bs[1..][..cut - 1], head + bs[0].len, to);
  }

  lemma FreeOlder(l: Layout, cap: nat, head: nat, tail: nat, size: nat)
    requires WellLaid(l, cap, head, tail, size) && l.wrapped && l.cut > 0
    ensures var len := l.blocks[0].len; var bs := l.blocks[1..];
            && len <= size && head + len <= cap
            && if head + len == cap then WellLaid(Layout(bs, |bs|, 0, false), cap, 0, tail, size - len)
               else WellLaid(Layout(bs, l.cut - 1, l.gap, true), cap, head + len, tail, size - len)
  {
    OldestOfOlder(l.blocks, l.cut, head, cap - l.gap, tail);
    GapFromFields(l, cap, head, tail, size);
    var len, bs := l.blocks[0].len, l.blocks[1..];
    assert forall i :: 0 <= i < |bs| ==> bs[i] == l.blocks[i + 1];
    if l.cut < |l.blocks| {
      NewerReaches(l.blocks, l.cut, tail);
    }
    if head + len == cap {
      EndReached(bs, l.cut - 1, cap, tail);
    } else {
      TotalOfRuns(bs, l.cut - 1, head + len, cap - l.gap, tail);
    }
    hide Chain, Total;
  }

  lemma TotalOfRuns(bs: seq<Block>, cut: nat, from: nat, to: nat, tail: nat)
    requires cut <= |bs| && Chain(bs[..cut], from, to) && Chain(bs[cut..], 0, tail)
    ensures from <= to && Total(bs) == to - from + tail
  {
    ChainSpan(bs[..cut], from, to);
    ChainSpan(bs[cut..], 0, tail);
    hide Chain, Total;
    TotalSplit(bs[..cut], bs[cut..]);
    assert bs[..cut] + bs[cut..] == bs;
  }

  lemma FreeAcrossGap(l: Layout, cap: nat, head: nat, tail: nat, size: nat)
    requires WellLaid(l, cap, head, tail, size) && l.blocks != [] && l.wrapped && l.cut == 0
    ensures l.blocks[0].len <= size
    ensures WellLaid(Layout(l.blocks[1..], |l.blocks| - 1, 0, false), cap, l.blocks[0].len, tail,
                     size - l.blocks[0].len)
  {
    assert l.blocks[..l.cut] == [] && l.blocks[l.cut..] == l.blocks;
    ChainSpan(l.blocks, 0, tail);
  }

  /** The bytes held by each block of `bs`. */
  ghost function Slices(a: seq<byte>, bs: seq<Block>): (r: seq<seq<byte>>)
    requires forall i :: 0 <= i < |bs| ==> bs[i].start + bs[i].len <= |a|
  {
    seq(|bs|, i requires 0 <= i < |bs| => a[bs[i].start..bs[i].start + bs[i].len])
  }

  lemma SlicesAppend(a: seq<byte>, bs: seq<Block>, b: Block)
    requires forall i :: 0 <= i < |bs| ==> bs[i].start + bs[i].len <= |a|
    requires b.start + b.len <= |a|
    ensures Slices(a, bs + [b]) == Slices(a, bs) + [a[b.start..b.start + b.len]]
  {
  }

  lemma SlicesTail(a: seq<byte>, bs: seq<Block>)
    requires bs != [] && forall i :: 0 <= i < |bs| ==> bs[i].start + bs[i].len <= |a|
    ensures Slices(a, bs[1..]) == Slices(a, bs)[1..]
  {
  }

  lemma SlicesFill(a: seq<byte>, a': seq<byte>, bs: seq<Block>, k: nat)
    requires k < |bs| && |a'| == |a|
    requires forall i :: 0 <= i < |bs| ==> bs[i].start + bs[i].len <= |a|
    requires forall i, j :: 0 <= i < j < |bs| ==>
               bs[i].start + bs[i].len <= bs[j].start || bs[j].start + bs[j].len <= bs[i].start
    requires forall p :: 0 <= p < |a| && !(bs[k].start <= p < bs[k].start + bs[k].len) ==> a'[p] == a[p]
    ensures Slices(a', bs) == Slices(a, bs)[k := a'[bs[k].start..bs[k].start + bs[k].len]]
  {
    forall j | 0 <= j < |bs| && j != k
      ensures a'[bs[j].start..bs[j].start + bs[j].len] == a[bs[j].start..bs[j].start + bs[j].len]
    {
      assert if j < k then bs[j].start + bs[j].len <= bs[k].start || bs[k].start + bs[k].len <= bs[j].start
             else bs[k].start + bs[k].len <= bs[j].start || bs[j].start + bs[j].len <= bs[k].start;
    }
  }

  class RingBuf {
    var base: array<byte>
    var head: nat
    var tail: nat
    var size: nat
    ghost var layout: Layout

    ghost predicate Valid()
      reads this
    {
      WellLaid(layout, base.Length, head, tail, size)
    }

    /** The queue of live blocks, each as the bytes it holds, oldest first. */
    ghost function Contents(): seq<seq<byte>>
      requires Valid()
      reads this, base
    {
      LiveBlocksDisjoint(layout, base.Length, head, tail, size);
      Slices(base[..], layout.blocks)
    }

    constructor (cap: nat)
      ensures Valid() && fresh(base) && base.Length == cap
      ensures layout.blocks == [] && head == tail == size == 0
    {
      base := new byte[cap];
      head, tail, size := 0, 0, 0;
      layout := Layout([], 0, 0, false);
    }

    /** Hands out `len` bytes as one more live block after all others, or NULL: at the tail when
        they fit there, else at the start when the ring is not wrapped. No byte of the buffer
        changes. */
    method Alloc(len: nat) returns (ret: Option<nat>)
      requires Valid()
      modifies this`tail, this`size, this`layout
      ensures Valid()
      ensures ret.None? <==> Refuses(base.Length, head, old(tail), old(size), len)
      ensures ret.None? ==> tail == old(tail) && size == old(size) && layout == old(layout)
      ensures ret.Some? ==> layout.blocks == old(layout.blocks) + [Block(ret.value, len)]
      ensures ret.Some? ==> size == old(size) + len && ret.value + len <= base.Length
      ensures ret.Some? ==>
                ret.value == if (head < old(tail) || old(size) == 0) && base.Length - old(tail) < len then 0 else old(tail)
      ensures ret.Some? ==> tail == if ret.value + len == base.Length then 0 else ret.value + len
      ensures ret.Some? ==> Contents() == old(Contents()) + [base[ret.value..ret.value + len]]
    {
      hide WellLaid, LayoutAfterAlloc, Slices;
      GapFromFields(layout, base.Length, head, tail, size);
      ret := Place(len);
      size := size + if ret.Some? then len else 0;
      if ret.Some? {
        AllocStep(layout, base.Length, head, old(tail), old(size), len);
        BlocksInside(layout, base.Length, head, old(tail), old(size));
        SlicesAppend(base[..], layout.blocks, Block(ret.value, len));
        layout := LayoutAfterAlloc(layout, base.Length, old(tail), ret.value, len);
      }
    }

    /** The choice of the place, and the tail behind it. */
    method Place(len: nat) returns (ret: Option<nat>)
      requires tail <= base.Length && if base.Length == 0 then head == size == 0 else head < base.Length
      modifies this`tail
      ensures ret.None? <==> Refuses(base.Length, head, old(tail), size, len)
      ensures ret.None? ==> tail == old(tail)
      ensures ret.Some? ==>
                ret.value == PlaceOf(base.Length, head, old(tail), size, len) && ret.value + len <= base.Length
      ensures ret.Some? ==> tail == if ret.value + len == base.Length then 0 else ret.value + len
    {
      ret := None;
      if head < tail || size == 0 {
        // [tail, cap) and [0, head)
        if base.Length - tail >= len {
          ret := Some(tail);
          tail := tail + len;
          if tail == base.Length {
            tail := 0;
          }
        } else if head >= len {
          ret := Some(0);
          tail := len;
        }
      } else {
        // [tail, head)
        if head - tail >= len {
          ret := Some(tail);
          tail := tail + len;
        }
      }
    }

    /** Releases the oldest live block, given its length; all others keep their bytes. */
    method Free(len: nat)
      requires Valid() && layout.blocks != [] && layout.blocks[0].len == len
      modifies this`head, this`size, this`layout
      ensures Valid()
      ensures layout.blocks == old(layout.blocks)[1..]
      ensures size == old(size) - len
      ensures head == if len > base.Length - old(head) then len
                      else if old(head) + len == base.Length then 0 else old(head) + len
      ensures Contents() == old(Contents())[1..]
      ensures layout.blocks == [] ==> head == tail && size == 0
    {
      hide WellLaid;
      LiveBlocksDisjoint(layout, base.Length, head, tail, size);
      WrapInference(layout, base.Length, head, tail, size);
      SlicesTail(base[..], layout.blocks);
      ghost var l := layout;
      layout := LayoutAfterFree(layout, base.Length, head, len);
      if !l.wrapped {
        FreeUnwrapped(l, base.Length, head, tail, size);
      } else if l.cut > 0 {
        FreeOlder(l, base.Length, head, tail, size);
      } else {
        FreeAcrossGap(l, base.Length, head, tail, size);
      }
      size := size - len;
      if len <= base.Length - head {
        head := head + len;
        if head == base.Length {
          head := 0;
        }
      } else {
        head := len;
      }
      GapFromFields(layout, base.Length, head, tail, size);
    }

    method Clear()
      modifies this`head, this`tail, this`size, this`layout
      ensures Valid() && layout.blocks == [] && head == tail == size == 0
    {
      head, tail, size := 0, 0, 0;
      layout := Layout([], 0, 0, false);
    }

    /** A caller filling the block it was handed leaves every other live block alone. */
    method Fill(ghost k: nat, start: nat, data: seq<byte>)
      requires Valid() && k < |layout.blocks| && layout.blocks[k] == Block(start, |data|)
      modifies base
      ensures Valid() && Contents() == old(Contents())[k := data]
    {
      LiveBlocksDisjoint(layout, base.Length, head, tail, size);
      forall i | 0 <= i < |data| {
        base[start + i] := data[i];
      }
      SlicesFill(old(base[..]), base[..], layout.blocks, k);
      assert base[start..start + |data|] == data;
    }
  }

  /** An empty ring may refuse although all of it is free: once a block of `h` bytes has come and
      gone, head and tail rest at `h`, and no more than the larger side of `h` is handed out. */
  method RefusesWhileEmpty(cap: nat, h: nat, len: nat) returns (ring: RingBuf, ret: Option<nat>)
    requires 0 < h < cap && Max(h, cap - h) < len <= cap
    ensures ring.Valid() && ring.base.Length == cap && ring.layout.blocks == []
    ensures ret.None? && FreeSpan(ring.layout, cap, 0, len)
  {
    ring := new RingBuf(cap);
    var p := ring.Alloc(h);
    ring.Free(h);
    ret := ring.Alloc(len);
  }

  lemma SkippedEndFree(l: Layout, cap: nat, head: nat, tail: nat, size: nat, lo: nat, len: nat)
    requires WellLaid(l, cap, head, tail, size) && size > 0 && tail <= head <= lo
    requires size + (head - tail) <= lo && lo + len <= cap
    ensures FreeSpan(l, cap, lo, len)
  {
    GapFromFields(l, cap, head, tail, size);
    forall x | lo <= x < lo + len ensures !Occupied(l.blocks, x) {
      OccupiedExactly(l, cap, head, tail, size, x);
    }
  }

  /** A wrapped ring may refuse although the bytes it skipped at the end would do: blocks of `a` and
      `b` bytes leave a gap, the first goes, and one of `c` bytes wraps. */
  method RefusesBesideGap(cap: nat, a: nat, b: nat, c: nat, len: nat) returns (ring: RingBuf, ret: Option<nat>)
    requires 0 < b && a + b < cap && cap - a - b < c <= a && a - c < len <= cap - a - b
    ensures ring.Valid() && ring.base.Length == cap && ring.size == b + c
    ensures ret.None? && FreeSpan(ring.layout, cap, a + b, len)
  {
    hide WellLaid, Slices;
    ring := new RingBuf(cap);
    var p := ring.Alloc(a);
    var q := ring.Alloc(b);
    ring.Free(a);
    var r := ring.Alloc(c);
    ret := ring.Alloc(len);
    SkippedEndFree(ring.layout, cap, ring.head, ring.tail, ring.size, a + b, len);
  }
}
