/** The small heap of src/mem.c: blocks in address order, a cursor to a low free block and two counters. */
module SmallHeapModel {
  import opened Blocks
  import opened Options
  import opened Payloads
  import opened Requests
  import opened Numbers

  /** Size of `struct heap_mem`. */
  const HDR: nat := 12

  datatype Heap = Heap(b: Blocks, lfree: nat, usedMem: int)

  ghost predicate Sound(b: Blocks) {
    && Tiled(b) && b.hdr == HDR && b.start == 0
    && b.prev[0] == 0 && b.next[b.tail] == b.tail
    && Even(b)
  }

  /** The cursor is a free block or the end of the heap. */
  ghost predicate Cursor(b: Blocks, lfree: nat) {
    lfree in b.next && lfree in b.used && (lfree == b.tail || !b.used[lfree])
  }

  /** No free block lies below the cursor. */
  ghost predicate Lowest(b: Blocks, lfree: nat) {
    forall a :: a in b.next && a in b.used && a < lfree ==> b.used[a]
  }

  ghost predicate Inv(h: Heap)
    ensures Inv(h) ==> Sound(h.b) && Coalesced(h.b) && Cursor(h.b, h.lfree)
  {
    && Sound(h.b) && Coalesced(h.b) && Cursor(h.b, h.lfree)
    && h.usedMem == Total(h.b, 0, true, 0)
  }

  predicate Live(b: Blocks, a: nat) {
    a in b.used && b.used[a] && a != b.tail
  }

  predicate Fits(b: Blocks, a: nat, size: nat) {
    a in b.next && a in b.used && !b.used[a] && Size(b, a) >= size
  }

  /** The search of rt_malloc: from block to block, as long as the address is below `limit`. */
  ghost function FirstFit(b: Blocks, a: nat, size: nat, limit: int): (r: Option<nat>)
    requires Tiled(b) && a in b.next && limit <= b.tail
    decreases b.tail - a
  {
    assert At(b, a);
    if a >= limit then None
    else if Fits(b, a, size) then Some(a)
    else FirstFit(b, b.next[a], size, limit)
  }

  /** The search finds the lowest block that fits and starts below `limit`, if there is one. */
  lemma {:induction false} FirstFitLowest(b: Blocks, a: nat, size: nat, limit: int)
    requires Tiled(b) && a in b.next && limit <= b.tail
    ensures var r := FirstFit(b, a, size, limit);
      && (r.None? <==> forall c :: c in b.next && a <= c < limit ==> !Fits(b, c, size))
      && (r.Some? ==>
          a <= r.value < limit && Fits(b, r.value, size) && forall c ::
                c in b.next && a <= c < r.value ==> !Fits(b, c, size))
    decreases b.tail - a
  {
    assert At(b, a);
    if a < limit && !Fits(b, a, size) {
      FirstFitLowest(b, b.next[a], size, limit);
      forall c | c in b.next && a <= c ensures c == a || b.next[a] <= c {
        assert Apart(b, a, c);
      }
    }
  }

  /** A cursor at the lowest free block skips used blocks only: the search might as well start at the
      beginning of the heap. */
  lemma CursorSkipsUsed(b: Blocks, lfree: nat, size: nat, limit: int)
    requires Sound(b) && Cursor(b, lfree) && Lowest(b, lfree) && limit <= b.tail
    ensures FirstFit(b, lfree, size, limit) == FirstFit(b, 0, size, limit)
  {
    FirstFitLowest(b, lfree, size, limit);
    FirstFitLowest(b, 0, size, limit);
    var r, s := FirstFit(b, lfree, size, limit), FirstFit(b, 0, size, limit);
    if s.Some? {
      assert lfree <= s.value;
    }
  }

  /** The strict bound of the search turns away a block that fits if and only if it is the last
      block and fits exactly. */
  lemma StrictBoundMisses(b: Blocks, a: nat, size: nat)
    requires Sound(b) && Fits(b, a, size)
    ensures a >= b.tail - HDR - size <==> b.next[a] == b.tail && Size(b, a) == size
  {
    assert At(b, a) && At(b, b.next[a]);
  }

  /** The loop of rt_malloc has work left after `n` turns. */
  ghost predicate Searching(b: Blocks, a: nat, size: nat, limit: int, n: nat)
    requires Sound(b) && a in b.next
    decreases n
  {
    assert At(b, a);
    a < limit && (n > 0 ==> !Fits(b, a, size) && Searching(b, b.next[a], size, limit, n - 1))
  }

  /** `mem_size_aligned - size`, in 32 bits. */
  function Bound(b: Blocks, size: nat): int {
    (b.tail - HDR - size) % WORD
  }

  lemma {:induction false} SearchStops(b: Blocks, a: nat, size: nat, limit: int, n: nat)
    requires Sound(b) && a in b.next && limit <= b.tail <= a + n
    ensures !Searching(b, a, size, limit, n)
    decreases n
  {
    assert At(b, a);
    if a >= limit || n == 0 {
    } else {
      SearchStops(b, b.next[a], size, limit, n - 1);
    }
  }

  lemma {:induction false} SearchSpins(b: Blocks, a: nat, size: nat, limit: int, n: nat)
    requires Sound(b) && a in b.next && size > b.tail - HDR && limit > b.tail
    ensures Searching(b, a, size, limit, n)
    decreases n
  {
    assert At(b, a) && At(b, b.next[a]);
    if n == 0 {
    } else {
      SearchSpins(b, b.next[a], size, limit, n - 1);
    }
  }

  /** With its bound in 32 bits, the search ends if and only if the size, which the minimum may have
      raised, is not larger than the heap. */
  lemma SearchEndsIff(b: Blocks, a: nat, size: nat)
    requires Sound(b) && a in b.next && b.tail + HDR < WORD && (size <= b.tail - HDR || size == MIN)
    ensures (exists n: nat :: !Searching(b, a, size, Bound(b, size), n)) <==> size <= b.tail - HDR
  {
    assert At(b, b.tail) && At(b, a);
    if size <= b.tail - HDR {
      assert Bound(b, size) == b.tail - HDR - size;
      SearchStops(b, a, size, Bound(b, size), b.tail);
    } else {
      assert Bound(b, size) == b.tail - HDR - size + WORD;
      forall n: nat ensures Searching(b, a, size, Bound(b, size), n) {
        SearchSpins(b, a, size, Bound(b, size), n);
      }
    }
  }

  /** The blocks after handing out the block at `a` for `size` bytes. */
  function TakeBlocks(b: Blocks, a: nat, size: nat): (r: Blocks)
    requires a in b.next
  {
    if Size(b, a) >= size + HDR + MIN then Mark(Split(b, a, a + HDR + size), a, true) else Mark(b, a, true)
  }

  /** `r` is the first free block from `a` on, or the end. */
  ghost predicate Advanced(b: Blocks, a: nat, r: nat) {
    Cursor(b, r) && a <= r && forall c :: c in b.next && c in b.used && a <= c < r ==> b.used[c]
  }

  /** rt_malloc on the block at `a`. */
  ghost predicate Taken(h: Heap, a: nat, size: nat, r: Heap)
    requires a in h.b.next
  {
    && r.b == TakeBlocks(h.b, a, size)
    && r.usedMem == h.usedMem + (r.b.next[a] - a)
    && if h.lfree == a then Advanced(r.b, a, r.lfree) else r.lfree == h.lfree
  }

  lemma TakeSound(b: Blocks, a: nat, size: nat)
    requires Sound(b) && Coalesced(b) && Fits(b, a, size) && size % 4 == 0
    ensures Sound(TakeBlocks(b, a, size)) && Coalesced(TakeBlocks(b, a, size))
    ensures Total(TakeBlocks(b, a, size), 0, true, 0) == Total(b, 0, true, 0) + (TakeBlocks(b, a, size).next[a] - a)
  {
    FreeNeighbours(b, a);
    assert At(b, a);
    if Size(b, a) >= size + HDR + MIN {
      var n := a + HDR + size;
      SplitSound(b, a, n);
      MarkSound(Split(b, a, n), a, true);
      CarveCoalesced(b, a, n);
      SplitTotal(b, a, n, 0, true, 0);
      MarkTotal(Split(b, a, n), a, true, 0, true, 0);
    } else {
      MarkSound(b, a, true);
      MarkUsedCoalesced(b, a);
      MarkTotal(b, a, true, 0, true, 0);
    }
  }

  /** Handing out a block keeps the heap sound and the count exact. */
  lemma TakeInv(h: Heap, a: nat, size: nat, r: Heap)
    requires Inv(h) && Fits(h.b, a, size) && size % 4 == 0 && Taken(h, a, size, r)
    ensures Inv(r)
  {
    hide Sound, Coalesced;
    TakeSound(h.b, a, size);
    TakeCursor(h, a, size, r);
  }

  lemma TakeCursor(h: Heap, a: nat, size: nat, r: Heap)
    requires Inv(h) && Fits(h.b, a, size) && Taken(h, a, size, r)
    ensures Cursor(r.b, r.lfree)
  {
    FreeNeighbours(h.b, a);
    assert At(h.b, a) && At(h.b, h.lfree) && Apart(h.b, a, h.lfree);
  }

  /** ... and the cursor at the lowest free block. */
  lemma TakeLowest(h: Heap, a: nat, size: nat, r: Heap)
    requires Inv(h) && Fits(h.b, a, size) && Taken(h, a, size, r) && Lowest(h.b, h.lfree)
    ensures Lowest(r.b, r.lfree)
  {
    FreeNeighbours(h.b, a);
    assert At(h.b, a);
  }

  /** The block at `a` has just become free; either neighbour may be free too. */
  ghost predicate Freed(b: Blocks, a: nat) {
    && Sound(b)
    && a in b.next && a != b.tail && !b.used[a]
    && forall c {:trigger NotBothFree(b, c)} :: c != a && (c in b.next ==> b.next[c] != a) ==> NotBothFree(b, c)
  }

  datatype Plugged = Plugged(b: Blocks, lfree: nat)

  /** `plug_holes` forward. */
  function PlugForward(b: Blocks, lfree: nat, a: nat): (r: Plugged)
    requires a in b.next && b.next[a] in b.next && b.next[a] in b.used
  {
    var m := b.next[a];
    if m != a && !b.used[m] && m != b.tail then Plugged(Merge(b, a), if lfree == m then a else lfree)
    else Plugged(b, lfree)
  }

  /** `plug_holes` backward. */
  function PlugBackward(b: Blocks, lfree: nat, a: nat): (r: Plugged)
    requires a in b.prev && b.prev[a] in b.next && b.prev[a] in b.used && b.next[b.prev[a]] in b.next
  {
    var p := b.prev[a];
    if p != a && !b.used[p] then Plugged(Merge(b, p), if lfree == a then p else lfree) else Plugged(b, lfree)
  }

  lemma Linked(b: Blocks, a: nat)
    requires Sound(b) && a in b.next && a != b.tail
    ensures b.next[a] in b.next && b.next[a] in b.used && a in b.prev && b.prev[a] in b.next && b.prev[a] in b.used
            && b.next[b.prev[a]] in b.next
    ensures a != 0 ==> b.next[b.prev[a]] == a && b.prev[a] < a
    ensures a + HDR <= b.next[a] <= b.tail
  {
    assert At(b, a) && At(b, b.next[a]) && At(b, 0) && At(b, b.prev[a]);
  }

  lemma MergeNextFreed(b: Blocks, a: nat)
    requires Freed(b, a) && CanMerge(b, a) && !b.used[b.next[a]]
    ensures Freed(Merge(b, a), a)
    ensures Merge(b, a).next[a] in Merge(b, a).used && Merge(b, a).used[Merge(b, a).next[a]]
  {
    var m := b.next[a];
    MergeSound(b, a);
    assert At(b, a) && At(b, m) && NotBothFree(b, m);
    forall c | c != a && (c in Merge(b, a).next ==> Merge(b, a).next[c] != a) ensures NotBothFree(Merge(b, a), c) {
      assert c in b.next ==> At(b, c);
      assert c != m ==> NotBothFree(b, c);
    }
  }

  /** Merging free blocks changes neither the used total nor, with its adjustment, the cursor. */
  lemma MergeKeeps(b: Blocks, lfree: nat, a: nat)
    requires Sound(b) && CanMerge(b, a) && !b.used[a] && !b.used[b.next[a]] && Cursor(b, lfree)
    ensures Sound(Merge(b, a)) && Total(Merge(b, a), 0, true, 0) == Total(b, 0, true, 0)
    ensures var l := if lfree == b.next[a] then a else lfree;
            Cursor(Merge(b, a), l) && (Lowest(b, lfree) ==> Lowest(Merge(b, a), l))
  {
    MergeSound(b, a);
    assert At(b, a) && At(b, b.next[a]);
    MergeTotal(b, a, 0, true, 0);
  }

  lemma ForwardFreed(b: Blocks, lfree: nat, a: nat)
    requires Freed(b, a) && Cursor(b, lfree)
    ensures b.next[a] in b.next && b.next[a] in b.used
    ensures var r := PlugForward(b, lfree, a);
      && Freed(r.b, a) && Cursor(r.b, r.lfree)
      && r.b.next[a] in r.b.used && r.b.used[r.b.next[a]]
      && Total(r.b, 0, true, 0) == Total(b, 0, true, 0)
      && (Lowest(b, lfree) ==> Lowest(r.b, r.lfree))
  {
    hide Lowest, Cursor, Tiled;
    Linked(b, a);
    if !b.used[b.next[a]] && b.next[a] != b.tail {
      MergeNextFreed(b, a);
      MergeKeeps(b, lfree, a);
    } else {
      TailUsed(b);
    }
  }

  lemma TailUsed(b: Blocks)
    requires Tiled(b)
    ensures b.tail in b.used && b.used[b.tail]
  {
  }

  lemma BackwardCoalesced(b: Blocks, lfree: nat, a: nat)
    requires Freed(b, a) && Cursor(b, lfree) && b.next[a] in b.used && b.used[b.next[a]]
    ensures a in b.prev && b.prev[a] in b.next && b.prev[a] in b.used && b.next[b.prev[a]] in b.next
    ensures var r := PlugBackward(b, lfree, a);
      && Sound(r.b) && Coalesced(r.b) && Cursor(r.b, r.lfree)
      && Total(r.b, 0, true, 0) == Total(b, 0, true, 0)
      && (Lowest(b, lfree) ==> Lowest(r.b, r.lfree))
  {
    Linked(b, a);
    var p := b.prev[a];
    forall c | c != p ensures NotBothFree(b, c) {
      assert c in b.next ==> At(b, c);
    }
    if p != a && !b.used[p] {
      assert At(b, p);
      MergeKeeps(b, lfree, p);
      MergeCoalesced(b, p);
    } else {
      assert a == 0 ==> forall c :: c in b.next && c != b.tail ==> At(b, c);
      forall c ensures NotBothFree(b, c) {
        assert c in b.next ==> At(b, c);
      }
    }
  }

  /** `plug_holes`. */
  ghost function Plug(b: Blocks, lfree: nat, a: nat): (r: Plugged)
    requires Freed(b, a) && Cursor(b, lfree)
    ensures Sound(r.b) && Coalesced(r.b) && Cursor(r.b, r.lfree)
    ensures Total(r.b, 0, true, 0) == Total(b, 0, true, 0)
    ensures Lowest(b, lfree) ==> Lowest(r.b, r.lfree)
  {
    ForwardFreed(b, lfree, a);
    var f := PlugForward(b, lfree, a);
    BackwardCoalesced(f.b, f.lfree, a);
    PlugBackward(f.b, f.lfree, a)
  }

  lemma MarkFreed(b: Blocks, a: nat)
    requires Sound(b) && Coalesced(b) && Live(b, a)
    ensures Freed(Mark(b, a, false), a)
    ensures Total(Mark(b, a, false), 0, true, 0) == Total(b, 0, true, 0) - (b.next[a] - a)
  {
    MarkSound(b, a, false);
    MarkTotal(b, a, false, 0, true, 0);
    assert At(b, a);
    forall c | c != a && (c in b.next ==> b.next[c] != a) ensures NotBothFree(Mark(b, a, false), c) {
      assert NotBothFree(b, c);
    }
  }

  /** rt_free of the block at `a`. */
  ghost function Release(h: Heap, a: nat): (r: Heap)
    requires Inv(h) && Live(h.b, a)
  {
    MarkFreed(h.b, a);
    var p := Plug(Mark(h.b, a, false), if a < h.lfree then a else h.lfree, a);
    Heap(p.b, p.lfree, h.usedMem - (h.b.next[a] - a))
  }

  /** Freeing a block keeps the heap sound, the count exact and the cursor lowest. */
  lemma ReleaseInv(h: Heap, a: nat)
    requires Inv(h) && Live(h.b, a)
    ensures Inv(Release(h, a))
    ensures Lowest(h.b, h.lfree) ==> Lowest(Release(h, a).b, Release(h, a).lfree)
  {
    hide Sound, Coalesced, Freed;
    MarkFreed(h.b, a);
  }

  lemma SplitFreed(b: Blocks, a: nat, n: nat)
    requires Sound(b) && Coalesced(b) && Live(b, a) && CanSplit(b, a, n) && n % 4 == 0
    ensures Freed(Split(b, a, n), n)
    ensures Total(Split(b, a, n), 0, true, 0) == Total(b, 0, true, 0) - (b.next[a] - n)
  {
    SplitSound(b, a, n);
    SplitTotal(b, a, n, 0, true, 0);
    assert At(b, a) && At(b, b.next[a]);
    forall c | c != n && (c in Split(b, a, n).next ==> Split(b, a, n).next[c] != n)
      ensures NotBothFree(Split(b, a, n), c)
    {
      assert NotBothFree(b, c) && (c in b.next ==> At(b, c));
    }
  }

  /** The shrinking branch of rt_realloc: the block at `a` ends at `n` now. */
  ghost function Shrink(h: Heap, a: nat, n: nat): (r: Heap)
    requires Inv(h) && Live(h.b, a) && CanSplit(h.b, a, n) && n % 4 == 0
  {
    SplitFreed(h.b, a, n);
    var p := Plug(Split(h.b, a, n), h.lfree, n);
    Heap(p.b, p.lfree, h.usedMem - (h.b.next[a] - n))
  }

  lemma ShrinkInv(h: Heap, a: nat, n: nat)
    requires Inv(h) && Live(h.b, a) && CanSplit(h.b, a, n) && n % 4 == 0
    ensures Inv(Shrink(h, a, n))
  {
    hide Sound, Coalesced, Freed;
    SplitFreed(h.b, a, n);
  }

  lemma ShrinkPlugs(h: Heap, a: nat, n: nat)
    requires Inv(h) && Live(h.b, a) && CanSplit(h.b, a, n) && n % 4 == 0
    ensures Freed(Split(h.b, a, n), n) && Cursor(Split(h.b, a, n), h.lfree)
    ensures Split(h.b, a, n).next[n] in Split(h.b, a, n).next && Split(h.b, a, n).next[n] in Split(h.b, a, n).used
    ensures var f := PlugForward(Split(h.b, a, n), h.lfree, n);
            Shrink(h, a, n).b == f.b && Shrink(h, a, n).lfree == f.lfree && n in f.b.next && n in f.b.used
                && !f.b.used[n]
  {
    SplitFreed(h.b, a, n);
    var s := Split(h.b, a, n);
    ForwardFreed(s, h.lfree, n);
    var f := PlugForward(s, h.lfree, n);
    assert At(h.b, a) && At(h.b, h.b.next[a]);
    assert f.b.prev[n] == a && f.b.used[a];
  }

  /** Shrinking does not lower the cursor: it stays at the lowest free block exactly when the block
      lies above it or the block that follows is the cursor and gets merged. */
  lemma ShrinkLowest(h: Heap, a: nat, n: nat)
    requires Inv(h) && Live(h.b, a) && CanSplit(h.b, a, n) && n % 4 == 0 && Lowest(h.b, h.lfree)
    ensures var r := Shrink(h, a, n);
            Lowest(r.b, r.lfree) <==> h.lfree < a || (h.lfree == h.b.next[a] && h.lfree != h.b.tail)
  {
    hide Freed, Coalesced, Shrink;
    ShrinkPlugs(h, a, n);
    assert At(h.b, a) && At(h.b, h.b.next[a]) && Apart(h.b, a, h.lfree);
  }

  /** A heap with all of its 100 bytes handed out, shrunk to 4 bytes: the cursor stays at the end. */
  lemma ShrinkStrands()
    ensures var h := Heap(Blocks(0, 112, HDR, map[0 := 112, 112 := 112], map[0 := 0, 112 := 0],
                                 map[0 := true, 112 := true]), 112, 112);
      Inv(h) && Lowest(h.b, h.lfree) && Live(h.b, 0) && CanSplit(h.b, 0, 16)
          && !Lowest(Shrink(h, 0, 16).b, Shrink(h, 0, 16).lfree)
  {
    var b := Blocks(0, 112, HDR, map[0 := 112, 112 := 112], map[0 := 0, 112 := 0], map[0 := true, 112 := true]);
    forall a | a in b.next ensures At(b, a) {
    }
    forall a, c ensures Apart(b, a, c) {
    }
    assert Total(b, 112, true, 0) == 0;
    ShrinkLowest(Heap(b, 112, 112), 0, 16);
  }

  /** With the cursor at the end nothing is found, whatever is free. */
  lemma StrandedAtEnd(b: Blocks, size: nat, limit: int)
    requires Tiled(b) && limit <= b.tail
    ensures FirstFit(b, b.tail, size, limit) == None
  {
  }

  lemma FreeFacts(b: Blocks, a: nat)
    requires Tiled(b) && a in b.next && !b.used[a]
    ensures a != b.tail && a !in Allocated(b) && a + b.hdr <= b.next[a]
  {
    assert At(b, a);
  }

  lemma TakeAllocated(b: Blocks, a: nat, size: nat)
    requires Sound(b) && Coalesced(b) && Fits(b, a, size) && size % 4 == 0
    ensures Tiled(TakeBlocks(b, a, size))
    ensures Allocated(TakeBlocks(b, a, size)) ==
            Allocated(b)[a := if Size(b, a) >= size + HDR + MIN then a + HDR + size else b.next[a]]
    ensures a !in Allocated(b) && a in TakeBlocks(b, a, size).next
    ensures TakeBlocks(b, a, size).next[a] == Allocated(TakeBlocks(b, a, size))[a]
  {
    hide Tiled, Allocated, Coalesced;
    FreeFacts(b, a);
    if Size(b, a) >= size + HDR + MIN {
      SplitKeeps(b, a, a + HDR + size);
      MarkAllocated(Split(b, a, a + HDR + size), a);
    } else {
      MarkAllocated(b, a);
    }
  }

  /** No free block from the cursor on fits and starts below the bound. */
  ghost predicate NoFit(b: Blocks, lfree: nat, size: nat) {
    forall c :: c in b.next && lfree <= c < b.tail - HDR - size ==> !(c in b.used && !b.used[c] && Size(b, c) >= size)
  }

  lemma NoFitIff(b: Blocks, lfree: nat, size: nat)
    requires Tiled(b) && lfree in b.next
    ensures FirstFit(b, lfree, size, b.tail - HDR - size) == None <==> NoFit(b, lfree, size)
  {
    FirstFitLowest(b, lfree, size, b.tail - HDR - size);
  }

  /** `l` is the block that address `x` lies in. */
  ghost predicate Holds(b: Blocks, l: nat, x: nat) {
    l in b.next && l <= x && (x == l || x < b.next[l])
  }

  lemma MergeHolds(b: Blocks, a: nat, lfree: nat, x: nat)
    requires Tiled(b) && CanMerge(b, a) && Holds(b, lfree, x)
    ensures Holds(Merge(b, a), if lfree == b.next[a] then a else lfree, x)
  {
    assert At(b, a) && At(b, b.next[a]) && At(b, lfree);
  }

  /** The cursor stays on the block that it was in. */
  lemma PlugHolds(b: Blocks, lfree: nat, a: nat, x: nat)
    requires Freed(b, a) && Cursor(b, lfree) && Holds(b, lfree, x)
    ensures Holds(Plug(b, lfree, a).b, Plug(b, lfree, a).lfree, x)
  {
    hide Cursor, Freed, Holds;
    FreedFacts(b, a);
    Linked(b, a);
    ForwardFreed(b, lfree, a);
    var f := PlugForward(b, lfree, a);
    if !b.used[b.next[a]] && b.next[a] != b.tail {
      MergeHolds(b, a, lfree, x);
    }
    FreedFacts(f.b, a);
    Linked(f.b, a);
    BackwardCoalesced(f.b, f.lfree, a);
    var p := f.b.prev[a];
    if p != a && !f.b.used[p] {
      MergeHolds(f.b, p, f.lfree, x);
    }
  }

  /** Freeing puts the cursor on the block that holds the freed address or the old cursor, whichever is lower. */
  lemma ReleaseCursor(h: Heap, a: nat)
    requires Inv(h) && Live(h.b, a)
    ensures Holds(Release(h, a).b, Release(h, a).lfree, Min(a, h.lfree))
  {
    assert At(h.b, a) && At(h.b, h.lfree);
    MarkFreed(h.b, a);
    var l := if a < h.lfree then a else h.lfree;
    assert Holds(Mark(h.b, a, false), l, l);
    hide Freed, Plug, Holds;
    PlugHolds(Mark(h.b, a, false), l, a, l);
  }

  /** Shrinking leaves the cursor on the block that holds the old cursor. */
  lemma ShrinkCursor(h: Heap, a: nat, n: nat)
    requires Inv(h) && Live(h.b, a) && CanSplit(h.b, a, n) && n % 4 == 0
    ensures Holds(Shrink(h, a, n).b, Shrink(h, a, n).lfree, h.lfree)
  {
    SplitFreed(h.b, a, n);
    var s := Split(h.b, a, n);
    assert Cursor(s, h.lfree) && Holds(s, h.lfree, h.lfree);
    hide Freed, Plug, Holds;
    PlugHolds(s, h.lfree, n, h.lfree);
  }

  lemma PlugAllocated(b: Blocks, lfree: nat, a: nat)
    requires Freed(b, a) && Cursor(b, lfree)
    ensures Allocated(Plug(b, lfree, a).b) == Allocated(b)
  {
    hide Cursor, Freed;
    FreedFacts(b, a);
    ForwardFreed(b, lfree, a);
    var f := PlugForward(b, lfree, a);
    FreedFacts(f.b, a);
    if f.b != b {
      MergeAllocated(b, a);
    }
    BackwardCoalesced(f.b, f.lfree, a);
    if PlugBackward(f.b, f.lfree, a).b != f.b {
      assert At(f.b, a) && At(f.b, f.b.prev[a]);
      MergeAllocated(f.b, f.b.prev[a]);
    }
  }

  lemma FreedFacts(b: Blocks, a: nat)
    requires Freed(b, a)
    ensures Sound(b) && a in b.next && a != b.tail && !b.used[a]
  {
  }

  lemma ReleaseAllocated(h: Heap, a: nat)
    requires Inv(h) && Live(h.b, a)
    ensures Allocated(Release(h, a).b) == Allocated(h.b) - {a} && Release(h, a).b.tail == h.b.tail
  {
    hide Freed;
    MarkFreed(h.b, a);
    MarkAllocated(h.b, a);
    PlugAllocated(Mark(h.b, a, false), if a < h.lfree then a else h.lfree, a);
    PlugTail(Mark(h.b, a, false), if a < h.lfree then a else h.lfree, a);
  }

  lemma PlugTail(b: Blocks, lfree: nat, a: nat)
    requires Freed(b, a) && Cursor(b, lfree)
    ensures Plug(b, lfree, a).b.tail == b.tail
  {
    ForwardFreed(b, lfree, a);
    var f := PlugForward(b, lfree, a);
    BackwardCoalesced(f.b, f.lfree, a);
  }

  lemma ShrinkAllocated(h: Heap, a: nat, n: nat)
    requires Inv(h) && Live(h.b, a) && CanSplit(h.b, a, n) && n % 4 == 0
    ensures Allocated(Shrink(h, a, n).b) == Allocated(h.b)[a := n] && Shrink(h, a, n).b.tail == h.b.tail
  {
    hide Freed;
    SplitFreed(h.b, a, n);
    SplitCuts(h.b, a, n);
    PlugAllocated(Split(h.b, a, n), h.lfree, n);
    PlugTail(Split(h.b, a, n), h.lfree, n);
  }

  /** With the cursor at the lowest free block, freeing what was just handed out restores the heap. */
  lemma ReleaseUndoesTake(h: Heap, a: nat, size: nat, t: Heap)
    requires Inv(h) && Lowest(h.b, h.lfree) && Fits(h.b, a, size) && size % 4 == 0 && Taken(h, a, size, t)
    ensures Inv(t) && Live(t.b, a) && Release(t, a) == h
  {
    hide Lowest, Cursor, Coalesced, Advanced, Release;
    TakeInv(h, a, size, t);
    TakeLowest(h, a, size, t);
    TakeAllocated(h.b, a, size);
    assert Live(t.b, a) by { assert a in Allocated(t.b); }
    var r := Release(t, a);
    ReleaseInv(t, a);
    ReleaseAllocated(t, a);
    assert Allocated(r.b) == Allocated(h.b);
    SameBlocks(r.b, h.b);
    LowestUnique(h.b, r.lfree, h.lfree);
  }

  lemma LowestUnique(b: Blocks, l: nat, m: nat)
    requires Tiled(b) && Cursor(b, l) && Lowest(b, l) && Cursor(b, m) && Lowest(b, m)
    ensures l == m
  {
    assert At(b, l) && At(b, m);
  }
}

/** The allocator itself. Addresses are offsets from `heap_ptr`, and 0 stands for RT_NULL. */
module SmallHeap {
  import opened Blocks
  import opened Options
  import opened Payloads
  import opened Requests
  import opened SmallHeapModel
  import opened Numbers

  /** Where rt_realloc leaves the block: a block of just that size as it is, one with a surplus in which a header
      and a minimal block fit cut off there, and any other moved, which fails if and only if no free block fits. The
      cursor stays on the block that it was in. */
  ghost predicate Outcome(b: Blocks, lfree: nat, ptr: nat, size: nat, r: nat, c: Blocks, cursor: nat)
    requires Tiled(b) && Tiled(c) && ptr >= HDR && ptr - HDR in b.next
  {
    var was := b.next[ptr - HDR] - ptr;
    if was == size then
      r == ptr && c == b && cursor == lfree
    else if was > size + HDR + MIN then
      r == ptr && Allocated(c) == Allocated(b)[ptr - HDR := ptr + size] && Holds(c, cursor, lfree)
    else
      (r == 0 <==> NoFit(b, lfree, Round(size))) && (r != 0 ==> Placed(b, c, r, Round(size)))
  }

  class SmallHeap {
    const tail: nat
    var next: map<nat, nat>
    var prev: map<nat, nat>
    var used: map<nat, bool>
    var lfree: nat
    var usedMem: int
    var maxMem: int
    /** The bytes of the heap, headers included. */
    var mem: map<nat, int>
    /** The last block: the `prev` field of the end marker is not kept up to date. */
    ghost var last: nat
    /** The bytes in use after every operation so far, the latest first. */
    ghost var usage: seq<int>

    ghost function B(): Blocks
      reads this`next, this`prev, this`used, this`last
    {
      Blocks(0, tail, HDR, next, prev[tail := last], used)
    }

    ghost function H(): Heap
      reads this`next, this`prev, this`used, this`last, this`lfree, this`usedMem
    {
      Heap(B(), lfree, usedMem)
    }

    ghost predicate Recorded()
      reads this`usage, this`usedMem, this`maxMem
    {
      usage != [] && usage[0] == usedMem && maxMem == Highest(usage)
    }

    ghost predicate Valid()
      reads this
    {
      && Inv(H()) && Recorded()
      && tail >= HDR && tail + HDR < WORD && tail in prev
      && (forall i :: i in mem <==> 0 <= i < tail + HDR)
    }

    /** rt_system_heap_init, where `size` is `mem_size_aligned`. */
    constructor (size: nat, bytes: map<nat, int>)
      requires size % 4 == 0 && size + 2 * HDR < WORD
      requires forall i :: i in bytes <==> 0 <= i < size + 2 * HDR
      ensures Valid() && tail == size + HDR
      ensures Lowest(B(), lfree) && Allocated(B()) == map[] && usedMem == 0 && maxMem == 0
      ensures lfree == 0 && next == map[0 := tail, tail := tail] && used == map[0 := false, tail := true]
    {
      tail := size + HDR;
      next := map[0 := size + HDR, size + HDR := size + HDR];
      prev := map[0 := 0, size + HDR := size + HDR];
      used := map[0 := false, size + HDR := true];
      lfree, usedMem, maxMem, mem := 0, 0, 0, bytes;
      last, usage := 0, [0];
      new;
      FreshHeap(B());
    }

    /** Write a free header at `n` inside the block at `a`. */
    method Cut(a: nat, n: nat)
      requires Sound(B()) && CanSplit(B(), a, n) && n % 4 == 0 && tail in prev
      modifies this`next, this`prev, this`used, this`last
      ensures B() == Split(old(B()), a, n) && tail in prev
    {
      CutApart(B(), a, n);
      hide Sound;
      PrevAfterCut(prev, tail, last, a, n, next[a]);
      var m := next[a];
      next := next[n := m][a := n];
      prev := prev[n := a];
      used := used[n := false];
      if m != tail {
        prev := prev[m := n];
      } else {
        last := n;
      }
    }

    /** Let the block at `a` swallow its successor. */
    method Fuse(a: nat)
      requires Sound(B()) && CanMerge(B(), a) && tail in prev
      modifies this`next, this`prev, this`used, this`last
      ensures B() == Merge(old(B()), a) && tail in prev
    {
      var m := next[a];
      assert At(B(), a) && At(B(), m);
      var e := next[m];
      next := (next - {m})[a := e];
      prev := (prev - {m})[e := a];
      used := used - {m};
      if e == tail {
        last := a;
      }
      assert B().prev == Merge(old(B()), a).prev;
    }

    /** `plug_holes`. */
    method PlugHoles(a: nat)
      requires Freed(B(), a) && Cursor(B(), lfree) && tail in prev
      modifies this`next, this`prev, this`used, this`last, this`lfree
      ensures Plugged(B(), lfree) == Plug(old(B()), old(lfree), a) && tail in prev
    {
      hide Freed, Cursor, Lowest, Tiled;
      ForwardFreed(B(), lfree, a);
      FreedFacts(B(), a);
      Linked(B(), a);
      var m := next[a];
      if a != m && !used[m] && m != tail {
        if lfree == m {
          lfree := a;
        }
        Fuse(a);
      }
      BackwardCoalesced(B(), lfree, a);
      FreedFacts(B(), a);
      Linked(B(), a);
      var p := prev[a];
      if p != a && !used[p] {
        if lfree == a {
          lfree := p;
        }
        Fuse(p);
      }
    }

    /** Moves the cursor to the first free block from where it is. */
    method Advance()
      requires Sound(B()) && lfree in next
      modifies this`lfree
      ensures Advanced(B(), old(lfree), lfree)
    {
      assert At(B(), lfree);
      while used[lfree] && lfree != tail
        invariant lfree in next && old(lfree) <= lfree <= tail
        invariant forall c :: c in next && c in used && old(lfree) <= c < lfree ==> used[c]
        decreases tail - lfree
      {
        assert At(B(), lfree);
        forall c | c in next && lfree < c ensures next[lfree] <= c {
          assert Apart(B(), lfree, c);
        }
        lfree := next[lfree];
      }
      assert At(B(), lfree);
    }

    /** The headers of the block that rt_malloc hands out. */
    method Claim(a: nat, size: nat)
      requires Inv(H()) && Fits(B(), a, size) && size % 4 == 0 && tail in prev
      modifies this`next, this`prev, this`used, this`last, this`usedMem
      ensures a in old(next) && B() == TakeBlocks(old(B()), a, size) && tail in prev && a in next
      ensures usedMem == old(usedMem) + (next[a] - a)
    {
      TakeSound(B(), a, size);
      TakeRoom(H(), a, size);
      hide Inv, Sound, Coalesced;
      if next[a] - (a + HDR) >= size + HDR + MIN {
        Cut(a, a + HDR + size);
        usedMem := usedMem + (size + HDR);
      } else {
        usedMem := usedMem + (next[a] - a);
      }
      used := used[a := true];
    }

    /** rt_malloc on the block at `a`. */
    method TakeBlock(a: nat, size: nat)
      requires Inv(H()) && Fits(B(), a, size) && size % 4 == 0 && tail in prev
      modifies this`next, this`prev, this`used, this`last, this`lfree, this`usedMem, this`maxMem
      ensures Taken(old(H()), a, size, H()) && tail in prev && maxMem == Max(old(maxMem), usedMem)
    {
      TakeSound(B(), a, size);
      TakeRoom(H(), a, size);
      hide Inv, Sound, Coalesced, Advanced, TakeBlocks;
      Claim(a, size);
      if maxMem < usedMem {
        maxMem := usedMem;
      }
      if lfree == a {
        Advance();
      }
    }

    /** The search loop of rt_malloc. */
    method Search(size: nat) returns (r: Option<nat>)
      requires Inv(H()) && size <= tail - HDR
      ensures r == FirstFit(B(), lfree, size, tail - HDR - size)
    {
      var ptr := lfree;
      while ptr < tail - HDR - size
        invariant ptr in next
                  && FirstFit(B(), ptr, size, tail - HDR - size) == FirstFit(B(), lfree, size, tail - HDR - size)
        decreases tail - ptr
      {
        assert At(B(), ptr);
        if !used[ptr] && next[ptr] - (ptr + HDR) >= size {
          return Some(ptr);
        }
        ptr := next[ptr];
      }
      r := None;
    }

    /** The end of every operation: the record, and the bytes that header writes touched. */
    method Finish(was: set<nat>, ghost b: Blocks)
      requires Inv(H()) && Sound(b) && was == b.next.Keys && b.tail == tail && tail in prev
      requires usage != [] && maxMem == Max(Highest(usage), usedMem)
      requires tail >= HDR && tail + HDR < WORD && forall i :: i in mem <==> 0 <= i < tail + HDR
      modifies this`mem, this`usage
      ensures Valid() && Preserved(HDR, old(mem), mem, Allocated(b), Allocated(B()))
      ensures usage == [usedMem] + old(usage)
    {
      hide Inv, Tiled, Coalesced;
      assert ([usedMem] + usage)[1..] == usage;
      usage := [usedMem] + usage;
      mem := WriteHeaders(HDR, mem, was, next.Keys);
      InvTiled(H());
      HeadersOnly(old(mem), mem, b, B());
    }

    /** The search of rt_malloc ends, or there is none. */
    predicate Ends(request: nat) {
      request == 0 || Align(request) > tail - HDR || Round(request) <= tail - HDR
    }

    lemma EndsIff(request: nat)
      requires Inv(H()) && tail + HDR < WORD && request < WORD
      ensures Ends(request) <==>
              request == 0 || Align(request) > tail - HDR
              || exists n: nat :: !Searching(B(), lfree, Round(request), Bound(B(), Round(request)), n)
    {
      InvTiled(H());
      hide Inv, Align, Searching, Tiled;
      if Align(request) <= tail - HDR {
        SearchEndsIff(B(), lfree, Round(request));
      }
    }

    /** rt_malloc. */
    method Malloc(request: nat) returns (ptr: nat)
      requires Valid() && request < WORD && Ends(request)
      modifies this
      ensures Valid() && Preserved(HDR, old(mem), mem, Allocated(old(B())), Allocated(B()))
      ensures ptr == 0 <==> request == 0 || Align(request) > tail - HDR || NoFit(old(B()), old(lfree), Round(request))
      ensures ptr == 0 ==> H() == old(H()) && mem == old(mem)
      ensures ptr != 0 ==>
                && ptr >= HDR
                && FirstFit(old(B()), old(lfree), Round(request), tail - HDR - Round(request)) == Some(ptr - HDR)
                && ptr - HDR in old(next) && Taken(old(H()), ptr - HDR, Round(request), H())
                && HandedOut(old(B()), B(), ptr, Round(request)) && ptr < tail
                && Allocated(B())[ptr - HDR] < ptr + Round(request) + HDR + MIN
                && usedMem == old(usedMem) + (Allocated(B())[ptr - HDR] - (ptr - HDR))
      ensures old(Lowest(B(), lfree)) ==> Lowest(B(), lfree)
    {
      hide Inv, Tiled, Coalesced, Taken, Preserved, FirstFit, Fits, Lowest, NoFit, HandedOut;
      InvTiled(H());
      NoFitIff(B(), lfree, Round(request));
      PreservedSame(HDR, mem, Allocated(B()), Allocated(B()));
      if request == 0 {
        return 0;
      }
      var size := Align(request);
      if size > tail - HDR {
        return 0;
      }
      if size < MIN {
        size := MIN;
      }
      var found := Search(size);
      if found.None? {
        return 0;
      }
      var a := found.value;
      FirstFitLowest(B(), lfree, size, tail - HDR - size);
      FitsFacts(B(), a, size);
      ghost var h := H();
      var was := next.Keys;
      TakeBlock(a, size);
      TakeInv(h, a, size, H());
      TakenTail(h, a, size, H());
      TakenBlock(h, a, size, H());
      if Lowest(h.b, h.lfree) {
        TakeLowest(h, a, size, H());
      }
      Finish(was, h.b);
      ptr := a + HDR;
    }

    /** RT_NULL, an address outside the heap, or a live block. */
    ghost predicate Known(ptr: nat)
      reads this
    {
      0 < ptr < tail ==> ptr >= HDR && Live(B(), ptr - HDR)
    }

    /** rt_free. */
    method Free(ptr: nat)
      requires Valid() && Known(ptr)
      modifies this
      ensures Valid() && Preserved(HDR, old(mem), mem, Allocated(old(B())), Allocated(B()))
      ensures ptr == 0 || ptr >= tail ==> H() == old(H()) && mem == old(mem)
      ensures 0 < ptr < tail ==> H() == Release(old(H()), ptr - HDR)
      ensures old(Lowest(B(), lfree)) ==> Lowest(B(), lfree)
    {
      hide Inv, Tiled, Coalesced, Preserved, Freed, Cursor, Plug, Lowest;
      InvTiled(H());
      PreservedSame(HDR, mem, Allocated(B()), Allocated(B()));
      if ptr == 0 || ptr >= tail {
        return;
      }
      var a := ptr - HDR;
      ghost var h := H();
      var was := next.Keys;
      ReleaseInv(h, a);
      ReleaseAllocated(h, a);
      MarkFreed(h.b, a);
      FreedCursor(h, a);
      used := used[a := false];
      if a < lfree {
        lfree := a;
      }
      usedMem := usedMem - (next[a] - a);
      PlugHoles(a);
      BlockLength(h, a);
      Finish(was, h.b);
    }

    /** Allocation in terms of the blocks handed out. */
    method MallocSized(size: nat) returns (ptr: nat)
      requires Valid() && size < WORD && 0 < size == Align(size) && Ends(size)
      modifies this
      ensures Valid() && Preserved(HDR, old(mem), mem, Allocated(old(B())), Allocated(B()))
      ensures ptr == 0 <==> size > tail - HDR || NoFit(old(B()), old(lfree), Round(size))
      ensures ptr == 0 ==> H() == old(H()) && mem == old(mem)
      ensures ptr != 0 ==> HandedOut(old(B()), B(), ptr, Round(size))
    {
      hide Inv, Tiled, Coalesced, Preserved, FirstFit, Fits, Lowest, Advanced, Taken, HandedOut, NoFit;
      ptr := Malloc(size);
    }

    /** Copy part of the payload of one live block to another and free the first. */
    method Transfer(ptr: nat, r: nat, n: nat)
      requires Valid() && HDR <= ptr < tail && r >= HDR && ptr != r
      requires ptr - HDR in Allocated(B()) && ptr + n <= Allocated(B())[ptr - HDR]
      requires r - HDR in Allocated(B()) && r + n <= Allocated(B())[r - HDR]
      modifies this
      ensures Valid() && Allocated(B()) == Allocated(old(B())) - {ptr - HDR}
      ensures Carried(old(mem), mem, ptr, r, n)
      ensures OthersKept(HDR, old(mem), mem, Allocated(old(B())) - {r - HDR}, ptr - HDR)
    {
      hide Inv, Tiled, Coalesced, Preserved, Release, Carried, OthersKept, ClearOf, Lowest;
      ghost var h, m := H(), mem;
      InvTiled(h);
      PayloadsApart(h.b, ptr - HDR, r - HDR);
      PayloadsApart(h.b, r - HDR, ptr - HDR);
      AllClear(h.b, r - HDR);
      mem := CopyBytes(mem, r, ptr, n);
      ghost var m1 := mem;
      ReleaseAllocated(h, ptr - HDR);
      Free(ptr);
      TransferKeeps(HDR, m, m1, mem, Allocated(h.b), ptr - HDR, r - HDR, n);
    }

    /** The branch of rt_realloc that moves the payload to another block. */
    method Move(ptr: nat, size: nat) returns (r: nat)
      requires Valid() && HDR <= ptr < tail && Live(B(), ptr - HDR)
      requires size < WORD && 0 < size == Align(size) && Ends(size)
      modifies this
      ensures Valid()
      ensures r == 0 <==> size > tail - HDR || NoFit(old(B()), old(lfree), Round(size))
      ensures r == 0 ==> H() == old(H()) && mem == old(mem)
      ensures r != 0 ==> Resized(old(B()), old(mem), ptr, B(), mem, r, size) && Placed(old(B()), B(), r, Round(size))
    {
      hide Inv, Tiled, Coalesced, Preserved, Carried, OthersKept, Lowest, Resized, NoFit;
      ghost var b, m, p := B(), mem, ptr - HDR;
      InvTiled(H());
      BlockLength(H(), p);
      LiveAt(b, p);
      var room := next[ptr - HDR] - ptr;
      var n := if room < size then room else size;
      r := MallocSized(size);
      if r != 0 {
        ghost var m1, c := mem, B();
        InvTiled(H());
        Transfer(ptr, r, n);
        InvTiled(H());
        MoveResizes(b, m, c, m1, B(), mem, p, r - HDR, size);
      }
    }

    /** The branch of rt_realloc that shrinks in place. */
    method ShrinkBlock(a: nat, n: nat)
      requires Valid() && Live(B(), a) && CanSplit(B(), a, n) && n % 4 == 0
      modifies this
      ensures Valid() && Preserved(HDR, old(mem), mem, Allocated(old(B())), Allocated(B()))
      ensures H() == Shrink(old(H()), a, n)
    {
      hide Inv, Tiled, Coalesced, Preserved, Freed, Cursor, Plug, Lowest;
      InvTiled(H());
      ghost var h := H();
      var was := next.Keys;
      ShrinkInv(h, a, n);
      ShrinkAllocated(h, a, n);
      SplitFreed(h.b, a, n);
      SplitCursor(h, a, n);
      usedMem := usedMem - (next[a] - n);
      Cut(a, n);
      PlugHoles(n);
      Finish(was, h.b);
    }

    /** rt_realloc. Requests above 2^32 - 4 are taken for 0. */
    method Realloc(ptr: nat, request: nat) returns (r: nat)
      requires Valid() && Known(ptr) && request < WORD && (Align(request) == 0 || Ends(request))
      modifies this
      ensures Valid()
      ensures request == 0 || request > WORD - 4 ==>
                && r == 0 && Preserved(HDR, old(mem), mem, Allocated(old(B())), Allocated(B()))
                && (if 0 < ptr < tail then H() == Release(old(H()), ptr - HDR) else H() == old(H()) && mem == old(mem))
      ensures 0 < request <= WORD - 4 && r == 0 ==> H() == old(H()) && mem == old(mem)
      ensures request > tail - HDR ==> r == 0
      ensures 0 < request <= tail - HDR && ptr == 0 ==> (r == 0 <==> NoFit(old(B()), old(lfree), Round(request)))
      ensures 0 < request <= tail - HDR && 0 < ptr < tail ==>
                Outcome(old(B()), old(lfree), ptr, Align(request), r, B(), lfree)
      ensures ptr >= tail ==> H() == old(H()) && mem == old(mem) && (r == ptr || r == 0)
      ensures ptr >= tail ==> (r == ptr <==> 0 < request <= tail - HDR)
      ensures r != 0 && ptr == 0 ==>
                && HandedOut(old(B()), B(), r, Round(request))
                && Preserved(HDR, old(mem), mem, Allocated(old(B())), Allocated(B()))
      ensures r != 0 && 0 < ptr < tail ==>
                && Resized(old(B()), old(mem), ptr, B(), mem, r, Align(request))
                && Resized(old(B()), old(mem), ptr, B(), mem, r, request)
    {
      hide Inv, Tiled, Coalesced, Preserved, Carried, OthersKept, Release, Lowest, Resized, Align, Round, Highest,
           Allocated, NoFit, Outcome, HandedOut;
      r := 0;
      var newsize := Align(request);
      AlignedRequest(H(), request);
      if newsize > tail - HDR {
        return;
      }
      if newsize == 0 {
        Free(ptr);
        return;
      }
      if ptr == 0 {
        r := MallocSized(newsize);
        return;
      }
      if ptr >= tail {
        return ptr;
      }
      LiveAt(B(), ptr - HDR);
      r := Resize(ptr, newsize);
      if r != 0 {
        ResizedLess(old(B()), old(mem), ptr, B(), mem, r, newsize, request);
      }
    }

    /** rt_realloc of a live block to a rounded size. */
    method Resize(ptr: nat, newsize: nat) returns (r: nat)
      requires Valid() && HDR <= ptr < tail && Live(B(), ptr - HDR)
      requires newsize < WORD && 0 < newsize == Align(newsize) && Ends(newsize)
      modifies this
      ensures Valid()
      ensures r == 0 ==> H() == old(H()) && mem == old(mem)
      ensures r != 0 ==> Resized(old(B()), old(mem), ptr, B(), mem, r, newsize)
      ensures newsize <= tail - HDR ==> Outcome(old(B()), old(lfree), ptr, newsize, r, B(), lfree)
    {
      hide Inv, Tiled, Coalesced, Preserved, Carried, OthersKept, Lowest, Shrink, NoFit;
      ghost var b, m, a := B(), mem, ptr - HDR;
      InvTiled(H());
      BlockLength(H(), a);
      LiveAt(b, a);
      var size := next[ptr - HDR] - ptr;
      if size == newsize {
        PreservedSame(HDR, mem, Allocated(b), Allocated(b));
        InPlace(HDR, m, mem, Allocated(b), Allocated(b), a, newsize);
        return ptr;
      }
      if newsize + HDR + MIN < size {
        ShrinkAllocated(H(), a, ptr + newsize);
        ShrinkCursor(H(), a, ptr + newsize);
        ShrinkBlock(ptr - HDR, ptr + newsize);
        InvTiled(H());
        InPlace(HDR, m, mem, Allocated(b), Allocated(B()), a, newsize);
        return ptr;
      }
      r := Move(ptr, newsize);
    }
  }

  lemma TakenBlock(h: Heap, a: nat, size: nat, r: Heap)
    requires Inv(h) && Fits(h.b, a, size) && size % 4 == 0 && Taken(h, a, size, r) && Tiled(r.b)
    ensures h.b.hdr == HDR && HandedOut(h.b, r.b, a + HDR, size) && a in Allocated(r.b)
    ensures Allocated(r.b)[a] < a + size + 2 * HDR + MIN && r.usedMem == h.usedMem + (Allocated(r.b)[a] - a)
  {
    hide Tiled, Coalesced, Advanced, TakeBlocks;
    TakeAllocated(h.b, a, size);
  }

  lemma FreshFit(b: Blocks)
    requires Tiled(b) && b.tail == 112 && 0 in b.next && b.next[0] == 112 && b.used == map[0 := false, 112 := true]
    requires b.hdr == HDR
    ensures FirstFit(b, 0, 16, 84) == Some(0)
  {
    assert Fits(b, 0, 16);
  }

  /** A heap of 100 bytes with one block. */
  method OneBlock(bytes: map<nat, int>) returns (h: SmallHeap, ptr: nat)
    requires forall i :: i in bytes <==> 0 <= i < 124
    ensures fresh(h) && h.Valid() && HDR <= ptr < h.tail && Live(h.B(), ptr - HDR)
  {
    hide Inv, Tiled, Coalesced, Lowest, Preserved, Highest, FirstFit, Advanced;
    h := new SmallHeap(100, bytes);
    InvTiled(h.H());
    FreshFit(h.B());
    ptr := h.Malloc(16);
    assert h.used[0];
  }

  /** A live block, of which more than 2^32 - 4 bytes are requested, is freed. */
  method WrappedRequestFrees(bytes: map<nat, int>) returns (h: SmallHeap, ptr: nat, r: nat, ghost was: Heap)
    requires forall i :: i in bytes <==> 0 <= i < 124
    ensures fresh(h) && h.Valid() && Inv(was) && ptr >= HDR && Live(was.b, ptr - HDR)
    ensures r == 0 && h.H() == Release(was, ptr - HDR) && ptr - HDR !in Allocated(h.B())
  {
    hide Inv, Tiled, Coalesced, Release, Lowest, Highest, Align, Round;
    h, ptr := OneBlock(bytes);
    was := h.H();
    AlignedRequest(was, WORD - 1);
    r := h.Realloc(ptr, WORD - 1);
    ReleaseAllocated(was, ptr - HDR);
  }

  lemma HeapAligned(h: Heap)
    requires Inv(h)
    ensures Tiled(h.b) && h.b.tail % 4 == 0
  {
  }

  /** Heap sizes are multiples of 4, so the rounded request is compared like the request. */
  lemma AlignedRequest(h: Heap, request: nat)
    requires Inv(h) && request < WORD
    ensures Align(Align(request)) == Align(request) < WORD && Round(Align(request)) == Round(request)
    ensures Align(request) == 0 <==> request == 0 || request > WORD - 4
    ensures request <= WORD - 4 ==> request <= Align(request)
    ensures request <= WORD - 4 ==> (Align(request) > h.b.tail - HDR <==> request > h.b.tail - HDR)
  {
    AlignTwice(request);
    RoundCovers(request);
    RoundWraps(request);
    HeapAligned(h);
  }

  lemma LiveAt(b: Blocks, a: nat)
    requires Tiled(b)
    ensures Live(b, a) ==>
              a in Allocated(b) && a in b.next && Allocated(b)[a] == b.next[a] <= b.tail && a + b.hdr <= b.next[a]
    ensures a in Allocated(b) ==> Live(b, a)
  {
    if Live(b, a) {
      assert At(b, a) && At(b, b.next[a]);
    }
  }

  lemma SplitCursor(h: Heap, a: nat, n: nat)
    requires Inv(h) && Live(h.b, a) && CanSplit(h.b, a, n) && n % 4 == 0
    ensures Cursor(Split(h.b, a, n), h.lfree) && n < h.b.next[a]
  {
    SplitSound(h.b, a, n);
  }

  lemma AlignTwice(request: nat)
    requires request < WORD
    ensures Align(Align(request)) == Align(request) < WORD && Align(request) % 4 == 0
    ensures Round(Align(request)) == Round(request)
  {
    AlignSame(Align(request));
    hide Align;
  }

  lemma CutApart(b: Blocks, a: nat, n: nat)
    requires Sound(b) && CanSplit(b, a, n) && n % 4 == 0
    ensures n != b.tail && n !in b.next
  {
    SplitSound(b, a, n);
  }

  /** The `prev` fields after a cut, with and without the end marker's. */
  lemma PrevAfterCut(prev: map<nat, nat>, tail: nat, last: nat, a: nat, n: nat, m: nat)
    requires n != tail
    ensures m != tail ==> prev[n := a][m := n][tail := last] == prev[tail := last][n := a][m := n]
    ensures m == tail ==> prev[n := a][tail := n] == prev[tail := last][n := a][m := n]
  {
  }

  lemma TakeRoom(h: Heap, a: nat, size: nat)
    requires Inv(h) && Fits(h.b, a, size) && size % 4 == 0
    ensures Sound(h.b) && a in h.b.next
            && (Size(h.b, a) >= size + HDR + MIN ==> CanSplit(h.b, a, a + HDR + size) && (a + HDR + size) % 4 == 0)
    ensures a in TakeBlocks(h.b, a, size).next
  {
    FreeNeighbours(h.b, a);
  }

  lemma InvTiled(h: Heap)
    requires Inv(h)
    ensures Sound(h.b) && h.lfree in h.b.next && h.lfree in h.b.used
  {
  }

  lemma FitsFacts(b: Blocks, a: nat, size: nat)
    requires Sound(b) && Fits(b, a, size)
    ensures a in b.next
  {
  }

  lemma TakenTail(h: Heap, a: nat, size: nat, r: Heap)
    requires a in h.b.next && Taken(h, a, size, r)
    ensures r.b.tail == h.b.tail
  {
  }

  lemma FreedCursor(h: Heap, a: nat)
    requires Inv(h) && Live(h.b, a)
    ensures a in h.b.next && Cursor(Mark(h.b, a, false), if a < h.lfree then a else h.lfree)
  {
    assert At(h.b, a);
  }

  lemma BlockLength(h: Heap, a: nat)
    requires Inv(h) && Live(h.b, a)
    ensures a in h.b.next && a < h.b.next[a]
  {
    assert At(h.b, a);
  }

  lemma FreshHeap(b: Blocks)
    requires b.hdr == HDR && b.start == 0 && b.tail >= HDR && b.tail % 4 == 0
    requires b.next == map[0 := b.tail, b.tail := b.tail] && b.prev == map[0 := 0, b.tail := 0]
    requires b.used == map[0 := false, b.tail := true]
    ensures Sound(b) && Coalesced(b) && Allocated(b) == map[] && Total(b, 0, true, 0) == 0
  {
    forall a | a in b.next ensures At(b, a) {
    }
    forall a, c ensures Apart(b, a, c) {
    }
    assert Total(b, b.tail, true, 0) == 0;
  }
}
