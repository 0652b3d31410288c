/** The doubly linked ring of free blocks of src/memheap.c. */
module FreeRing {
  import opened Lists

  /** Stands for the address of `free_header`, which lies outside the pool and is not 4-aligned here. */
  const HEAD: nat := 1

  /** From `p` on, the links visit exactly `s` and return to the list header. */
  ghost predicate Chain(nf: map<nat, nat>, pf: map<nat, nat>, p: nat, s: seq<nat>)
    decreases |s|
  {
    && p in nf
    && if s == [] then nf[p] == HEAD && HEAD in pf && pf[HEAD] == p
       else nf[p] == s[0] && s[0] in pf && pf[s[0]] == p && Chain(nf, pf, s[0], s[1..])
  }

  ghost predicate Ring(nf: map<nat, nat>, pf: map<nat, nat>, s: seq<nat>) {
    Chain(nf, pf, HEAD, s) && Distinct(s) && HEAD !in s
  }

  lemma {:induction false} ChainFrame(nf: map<nat, nat>, pf: map<nat, nat>, nf': map<nat, nat>, pf': map<nat, nat>,
                                      p: nat, s: seq<nat>)
    requires Chain(nf, pf, p, s)
    requires p in nf' && nf'[p] == nf[p]
    requires forall x :: x in s ==> x in nf && x in nf' && nf'[x] == nf[x]
    requires forall x :: (x in s || x == HEAD) && x in pf ==> x in pf' && pf'[x] == pf[x]
    ensures Chain(nf', pf', p, s)
    decreases |s|
  {
    if s == [] {
    } else {
      ChainFrame(nf, pf, nf', pf', s[0], s[1..]);
    }
  }

  lemma {:induction false} ChainLinks(nf: map<nat, nat>, pf: map<nat, nat>, p: nat, s: seq<nat>)
    requires Chain(nf, pf, p, s)
    ensures forall x :: x in s ==> x in nf && x in pf && (pf[x] == p || pf[x] in s) && (nf[x] == HEAD || nf[x] in s)
    ensures HEAD in pf && (pf[HEAD] == p || pf[HEAD] in s)
    ensures nf[p] == HEAD || nf[p] in s
    decreases |s|
  {
    if s == [] {
    } else {
      ChainLinks(nf, pf, s[0], s[1..]);
    }
  }

  /** Insertion behind the list header. */
  lemma Push(nf: map<nat, nat>, pf: map<nat, nat>, s: seq<nat>, x: nat)
    requires Ring(nf, pf, s) && x !in s && x != HEAD
    ensures HEAD in nf
    ensures Ring(nf[x := nf[HEAD]][HEAD := x], pf[x := HEAD][nf[HEAD] := x], [x] + s)
  {
    var nf', pf' := nf[x := nf[HEAD]][HEAD := x], pf[x := HEAD][nf[HEAD] := x];
    ChainLinks(nf, pf, HEAD, s);
    if s == [] {
      assert Chain(nf', pf', x, []);
    } else {
      ChainFrame(nf, pf, nf', pf', s[0], s[1..]);
    }
    assert ([x] + s)[1..] == s;
  }

  lemma {:induction false} ChainUnlink(nf: map<nat, nat>, pf: map<nat, nat>, p: nat, s: seq<nat>, x: nat)
    requires Chain(nf, pf, p, s) && Distinct(s) && p !in s && HEAD !in s && x in s
    ensures x in nf && x in pf
    ensures Chain(nf[pf[x] := nf[x]], pf[nf[x] := pf[x]], p, Without(s, x))
    decreases |s|
  {
    ChainLinks(nf, pf, p, s);
    var nf', pf' := nf[pf[x] := nf[x]], pf[nf[x] := pf[x]];
    if s[0] == x {
      WithoutHead(s);
      if s[1..] != [] {
        ChainLinks(nf, pf, s[1], s[2..]);
        ChainFrame(nf, pf, nf', pf', s[1], s[2..]);
      }
    } else {
      ChainLinks(nf, pf, s[0], s[1..]);
      ChainUnlink(nf, pf, s[0], s[1..], x);
      assert Without(s, x)[1..] == Without(s[1..], x);
    }
  }

  /** The links of a block that is not on the list do not matter. */
  lemma Forget(nf: map<nat, nat>, pf: map<nat, nat>, s: seq<nat>, x: nat)
    requires Ring(nf, pf, s) && x !in s && x != HEAD
    ensures Ring(nf[x := 0], pf[x := 0], s)
  {
    ChainLinks(nf, pf, HEAD, s);
    ChainFrame(nf, pf, nf[x := 0], pf[x := 0], HEAD, s);
  }

  lemma Unlink(nf: map<nat, nat>, pf: map<nat, nat>, s: seq<nat>, x: nat)
    requires Ring(nf, pf, s) && x in s
    ensures x in nf && x in pf
    ensures Ring(nf[pf[x] := nf[x]], pf[nf[x] := pf[x]], Without(s, x))
  {
    ChainUnlink(nf, pf, HEAD, s, x);
    WithoutDistinct(s, x);
  }
}

/** The block structure of a memory heap and what its operations do to it. */
module MemHeapModel {
  import opened Lists
  import opened Blocks
  import opened Payloads
  import opened Requests
  import opened Numbers

  const HDR: nat := 24

  /** `rt_memheap`: the blocks, the free list in its order, and the two counters. */
  datatype Heap = Heap(b: Blocks, frees: seq<nat>, available: int, maxUsed: int) {
    function PoolSize(): int {
      b.tail + HDR - b.start
    }
  }

  /** The block list is a ring: the closing header links back to the first block. */
  ghost predicate Closed(b: Blocks) {
    b.tail in b.next && b.start in b.prev && b.next[b.tail] == b.start && b.prev[b.start] == b.tail
  }

  ghost predicate Sound(b: Blocks) {
    Tiled(b) && b.hdr == HDR && Closed(b) && Even(b)
  }

  ghost predicate ListsFree(frees: seq<nat>, b: Blocks) {
    Distinct(frees) && forall x :: x in frees <==> x in b.used && !b.used[x]
  }

  ghost predicate Core(h: Heap)
    ensures Core(h) ==> Sound(h.b)
  {
    && Sound(h.b)
    && Coalesced(h.b)
    && ListsFree(h.frees, h.b)
    && h.available == Total(h.b, h.b.start, false, HDR)
  }

  /** The state of the heap between two calls. */
  ghost predicate Inv(h: Heap)
    ensures Inv(h) ==> Core(h)
  {
    Core(h) && h.PoolSize() - h.available <= h.maxUsed
  }

  /** The counters after `available` has changed. */
  function Account(h: Heap, available: int): (r: Heap) {
    h.(available := available, maxUsed := Max(h.maxUsed, h.PoolSize() - available))
  }

  /** Hand out the free block at `a` for `size` bytes, splitting it when another block fits behind. */
  function Take(h: Heap, a: nat, size: nat): (r: Heap)
    requires a in h.b.next
  {
    var n := a + HDR + size;
    if Size(h.b, a) >= size + HDR + MIN then
      Account(h.(b := Mark(Split(h.b, a, n), a, true), frees := [n] + Without(h.frees, a)), h.available - size - HDR)
    else
      Account(h.(b := Mark(h.b, a, true), frees := Without(h.frees, a)), h.available - Size(h.b, a))
  }

  lemma FreeListed(h: Heap, a: nat)
    requires Inv(h) && a in h.frees
    ensures h.b.hdr == HDR && a in h.b.next && a in h.b.used && !h.b.used[a] && a % 4 == 0
    ensures a != h.b.tail && a + HDR <= h.b.next[a]
  {
    FreeNeighbours(h.b, a);
    assert At(h.b, a);
  }

  lemma TakeWhole(h: Heap, a: nat)
    requires Inv(h) && a in h.frees
    ensures Inv(Account(h.(b := Mark(h.b, a, true), frees := Without(h.frees, a)), h.available - Size(h.b, a)))
  {
    FreeNeighbours(h.b, a);
    MarkSound(h.b, a, true);
    MarkUsedCoalesced(h.b, a);
    MarkTotal(h.b, a, true, h.b.start, false, HDR);
    assert At(h.b, a);
    WithoutDistinct(h.frees, a);
  }

  lemma TakePart(h: Heap, a: nat, n: nat)
    requires Inv(h) && a in h.frees && CanSplit(h.b, a, n) && n % 4 == 0
    ensures Inv(Account(h.(b := Mark(Split(h.b, a, n), a, true), frees := [n] + Without(h.frees, a)),
                        h.available - (n - a)))
  {
    var s := Split(h.b, a, n);
    FreeNeighbours(h.b, a);
    SplitSound(h.b, a, n);
    MarkSound(s, a, true);
    CarveCoalesced(h.b, a, n);
    SplitTotal(h.b, a, n, h.b.start, false, HDR);
    MarkTotal(s, a, true, h.b.start, false, HDR);
    assert At(h.b, a);
    WithoutDistinct(h.frees, a);
    assert ([n] + Without(h.frees, a))[1..] == Without(h.frees, a);
  }

  /** Handing out a block keeps the heap sound and the free byte count exact. */
  lemma TakeInv(h: Heap, a: nat, size: nat)
    requires Inv(h) && a in h.frees && a in h.b.next && size % 4 == 0 && size <= Size(h.b, a)
    ensures Inv(Take(h, a, size))
  {
    hide Inv;
    FreeListed(h, a);
    if Size(h.b, a) >= size + HDR + MIN {
      TakePart(h, a, a + HDR + size);
    } else {
      TakeWhole(h, a);
    }
  }

  /** A heap in which `c` has just become free: it may still have a free successor, and it is
      on the free list only if `listed`. */
  ghost predicate Half(h: Heap, c: nat, listed: bool) {
    && Sound(h.b)
    && c in h.b.next && c != h.b.tail && !h.b.used[c]
    && (forall a {:trigger NotBothFree(h.b, a)} :: a != c ==> NotBothFree(h.b, a))
    && Distinct(h.frees)
    && (forall x :: x in h.frees <==> x in h.b.used && !h.b.used[x] && (x == c ==> listed))
    && h.available == Total(h.b, h.b.start, false, HDR)
  }

  /** Merge with the next neighbour if that is free. */
  function MergeRight(h: Heap, c: nat): (r: Heap)
    requires c in h.b.next && h.b.next[c] in h.b.next && h.b.next[c] in h.b.used
  {
    var m := h.b.next[c];
    if h.b.used[m] then h
    else h.(b := Merge(h.b, c), frees := Without(h.frees, m), available := h.available + HDR)
  }

  function Enlist(h: Heap, c: nat): (r: Heap) {
    h.(frees := [c] + h.frees)
  }

  lemma MergeRightFree(h: Heap, c: nat, listed: bool)
    requires Half(h, c, listed) && CanMerge(h.b, c) && !h.b.used[h.b.next[c]]
    ensures Half(MergeRight(h, c), c, listed) && Coalesced(MergeRight(h, c).b)
  {
    assert At(h.b, c) && At(h.b, h.b.next[c]);
    MergeSound(h.b, c);
    MergeCoalesced(h.b, c);
    MergeTotal(h.b, c, h.b.start, false, HDR);
    WithoutDistinct(h.frees, h.b.next[c]);
    hide Distinct, Coalesced, NotBothFree;
  }

  lemma MergeRightHalf(h: Heap, c: nat, listed: bool)
    requires Half(h, c, listed)
    ensures At(h.b, c)
    ensures Half(MergeRight(h, c), c, listed) && Coalesced(MergeRight(h, c).b)
  {
    assert At(h.b, c);
    var m := h.b.next[c];
    assert At(h.b, m);
    if !h.b.used[m] {
      MergeRightFree(h, c, listed);
    } else {
      forall a ensures NotBothFree(h.b, a) {
        assert a != c ==> NotBothFree(h.b, a);
      }
    }
  }

  lemma EnlistCore(h: Heap, c: nat, listed: bool)
    requires Half(h, c, listed) && Coalesced(h.b)
    ensures Core(if listed then h else Enlist(h, c))
  {
    assert ([c] + h.frees)[1..] == h.frees;
  }

  /** Mark the block at `a` free and merge it with the previous neighbour if that is free. */
  function MergeLeft(h: Heap, a: nat): (r: Heap)
    requires a in h.b.next && a in h.b.prev && h.b.prev[a] in h.b.next && h.b.prev[a] in h.b.used
    requires h.b.next[h.b.prev[a]] in h.b.next
  {
    var p := h.b.prev[a];
    var freed := Mark(h.b, a, false);
    if h.b.used[p] then h.(b := freed, available := h.available + Size(h.b, a))
    else h.(b := Merge(freed, p), available := h.available + Size(h.b, a) + HDR)
  }

  /** Where the freed block starts after merging to the left. */
  function LeftEnd(h: Heap, a: nat): (c: nat)
    requires a in h.b.prev && h.b.prev[a] in h.b.used
  {
    if h.b.used[h.b.prev[a]] then a else h.b.prev[a]
  }

  predicate Live(h: Heap, a: nat) {
    a in h.b.used && h.b.used[a] && a != h.b.tail
  }

  lemma LiveLinks(h: Heap, a: nat)
    requires Sound(h.b) && Live(h, a)
    ensures a in h.b.next && a in h.b.prev && h.b.prev[a] in h.b.next && h.b.prev[a] in h.b.used
    ensures h.b.next[h.b.prev[a]] == a && a + HDR <= h.b.next[a] && h.b.next[a] in h.b.next && h.b.next[a] in h.b.used
  {
    assert At(h.b, a) && At(h.b, h.b.tail);
  }

  lemma FreedPairs(b: Blocks, a: nat, c: nat)
    requires Sound(b) && Coalesced(b) && a in b.next && a != b.tail && c != a
    requires b.prev[a] != c
    ensures NotBothFree(Mark(b, a, false), c)
  {
    assert NotBothFree(b, c) && (c in b.next ==> At(b, c)) && At(b, a);
  }

  lemma MergeLeftHalf(h: Heap, a: nat)
    requires Core(h) && Live(h, a)
    ensures At(h.b, a) && At(h.b, h.b.prev[a])
    ensures Half(MergeLeft(h, a), LeftEnd(h, a), !h.b.used[h.b.prev[a]])
  {
    LiveLinks(h, a);
    assert At(h.b, a) && At(h.b, h.b.prev[a]);
    var p, freed := h.b.prev[a], Mark(h.b, a, false);
    MarkSound(h.b, a, false);
    MarkTotal(h.b, a, false, h.b.start, false, HDR);
    forall c | c != a && c != p ensures NotBothFree(freed, c) {
      FreedPairs(h.b, a, c);
    }
    if h.b.used[p] {
      assert NotBothFree(freed, p);
    } else {
      MergeSound(freed, p);
      MergeTotal(freed, p, h.b.start, false, HDR);
      forall c | c != p ensures NotBothFree(Merge(freed, p), c) {
        assert c != a ==> NotBothFree(freed, c);
        assert c in h.b.next ==> At(h.b, c);
      }
    }
  }

  /** `rt_memheap_free` of the block at `a`. */
  ghost function Release(h: Heap, a: nat): (r: Heap)
    requires Core(h) && Live(h, a)
  {
    MergeLeftHalf(h, a);
    var c, l := LeftEnd(h, a), MergeLeft(h, a);
    MergeRightHalf(l, c, !h.b.used[h.b.prev[a]]);
    assert At(l.b, l.b.next[c]);
    if h.b.used[h.b.prev[a]] then Enlist(MergeRight(l, c), c) else MergeRight(l, c)
  }

  lemma ReleaseInv(h: Heap, a: nat)
    requires Inv(h) && Live(h, a)
    ensures Inv(Release(h, a)) && Release(h, a).available >= h.available + Size(h.b, a)
  {
    hide Half, Core;
    LiveLinks(h, a);
    MergeLeftHalf(h, a);
    var c, l, listed := LeftEnd(h, a), MergeLeft(h, a), !h.b.used[h.b.prev[a]];
    MergeRightHalf(l, c, listed);
    EnlistCore(MergeRight(l, c), c, listed);
  }

  /** The block structure is a canonical form of what is handed out: two heaps over the same
      pool with the same live blocks have the same headers, links and flags. */
  lemma Canonical(b: Blocks, c: Blocks)
    requires Sound(b) && Coalesced(b) && Sound(c) && Coalesced(c)
    requires b.start == c.start && b.tail == c.tail && Allocated(b) == Allocated(c)
    ensures b == c
  {
    SameBlocks(b, c);
  }

  lemma TakeAllocated(h: Heap, a: nat, size: nat)
    requires Inv(h) && a in h.frees && a in h.b.next && size % 4 == 0 && size <= Size(h.b, a)
    ensures Inv(Take(h, a, size))
    ensures Allocated(Take(h, a, size).b) ==
            Allocated(h.b)[a := if Size(h.b, a) >= size + HDR + MIN then a + HDR + size else h.b.next[a]]
    ensures Live(Take(h, a, size), a)
    ensures Take(h, a, size).b.start == h.b.start && Take(h, a, size).b.tail == h.b.tail
  {
    hide Inv;
    TakeInv(h, a, size);
    FreeListed(h, a);
    assert Tiled(h.b) by { InvTiled(h); }
    if Size(h.b, a) >= size + HDR + MIN {
      SplitKeeps(h.b, a, a + HDR + size);
      MarkAllocated(Split(h.b, a, a + HDR + size), a);
    } else {
      MarkAllocated(h.b, a);
    }
  }

  /** A block that becomes free goes to the front of the free list; the others stay in their order. */
  lemma TakeList(h: Heap, a: nat, size: nat)
    requires a in h.b.next
    ensures Take(h, a, size).frees ==
            (if Size(h.b, a) >= size + HDR + MIN then [a + HDR + size] else []) + Without(h.frees, a)
  {
  }

  lemma ReleaseList(h: Heap, a: nat)
    requires Core(h) && Live(h, a)
    ensures At(h.b, a) && At(h.b, h.b.prev[a])
    ensures var p, m := h.b.prev[a], h.b.next[a];
            Release(h, a).frees ==
            (if h.b.used[p] then [a] else []) + if h.b.used[m] then h.frees else Without(h.frees, m)
  {
    LiveLinks(h, a);
    MergeLeftHalf(h, a);
    var c, l := LeftEnd(h, a), MergeLeft(h, a);
    assert At(l.b, c) && At(h.b, h.b.next[a]);
    assert l.b.next[c] == h.b.next[a];
    hide Half, Core, Without;
  }

  lemma ShrinkList(h: Heap, a: nat, n: nat)
    requires Core(h) && Live(h, a) && CanSplit(h.b, a, n) && n % 4 == 0
    ensures h.b.next[a] in h.b.used
    ensures Shrink(h, a, n).frees ==
            [n] + if h.b.used[h.b.next[a]] then h.frees else Without(h.frees, h.b.next[a])
  {
    assert At(h.b, a) && At(h.b, h.b.next[a]);
    CutHalf(h, a, n);
  }

  lemma GrowList(h: Heap, a: nat, n: nat)
    requires a in h.b.next && h.b.next[a] in h.b.next && h.b.next[h.b.next[a]] in h.b.next
    ensures Grow(h, a, n).frees == [n] + Without(h.frees, h.b.next[a])
  {
  }

  /** No free block has `size` bytes. */
  ghost predicate NoFit(b: Blocks, size: nat) {
    forall a :: a in b.next && a in b.used && !b.used[a] ==> Size(b, a) < size
  }

  lemma InvTiled(h: Heap)
    requires Inv(h)
    ensures Sound(h.b) && Coalesced(h.b) && h.available == Total(h.b, h.b.start, false, HDR)
  {
  }

  lemma ReleaseAllocated(h: Heap, a: nat)
    requires Inv(h) && Live(h, a)
    ensures Inv(Release(h, a)) && Allocated(Release(h, a).b) == Allocated(h.b) - {a}
    ensures Release(h, a).b.start == h.b.start && Release(h, a).b.tail == h.b.tail
  {
    ReleaseInv(h, a);
    MergeLeftHalf(h, a);
    var c, l, p, freed := LeftEnd(h, a), MergeLeft(h, a), h.b.prev[a], Mark(h.b, a, false);
    MarkAllocated(h.b, a);
    if !h.b.used[p] {
      MergeAllocated(freed, p);
    }
    MergeRightHalf(l, c, !h.b.used[p]);
    assert At(l.b, l.b.next[c]);
    if !l.b.used[l.b.next[c]] {
      MergeAllocated(l.b, c);
    }
  }

  /** Freeing a block right after handing it out restores every header, link, flag and the
      free byte count. */
  lemma ReleaseUndoesTake(h: Heap, a: nat, size: nat)
    requires Inv(h) && a in h.frees && a in h.b.next && size % 4 == 0 && size <= Size(h.b, a)
    ensures Inv(Take(h, a, size)) && Live(Take(h, a, size), a)
    ensures Release(Take(h, a, size), a).b == h.b
    ensures Release(Take(h, a, size), a).available == h.available
  {
    hide Inv, Take, Release, Tiled, Coalesced;
    var t := Take(h, a, size);
    TakeAllocated(h, a, size);
    ReleaseAllocated(t, a);
    FreeListed(h, a);
    InvTiled(h);
    InvTiled(Release(t, a));
    assert Allocated(t.b) - {a} == Allocated(h.b);
    Canonical(Release(t, a).b, h.b);
  }

  /** Let the live block at `a` swallow its free successor. */
  function Absorb(h: Heap, a: nat): (r: Heap)
    requires a in h.b.next && h.b.next[a] in h.b.next
  {
    var m := h.b.next[a];
    h.(b := Merge(h.b, a), frees := Without(h.frees, m), available := h.available - Size(h.b, m))
  }

  /** Cut the live block at `a` off at `n`; the rest becomes a free block. */
  function Cut(h: Heap, a: nat, n: nat): (r: Heap)
    requires a in h.b.next
  {
    h.(b := Split(h.b, a, n), available := h.available + h.b.next[a] - n - HDR)
  }

  lemma AbsorbCore(h: Heap, a: nat)
    requires Core(h) && Live(h, a) && CanMerge(h.b, a) && !h.b.used[h.b.next[a]]
    ensures Core(Absorb(h, a)) && Live(Absorb(h, a), a)
    ensures Absorb(h, a).b.next[a] == h.b.next[h.b.next[a]]
    ensures Allocated(Absorb(h, a).b) == Allocated(h.b)[a := h.b.next[h.b.next[a]]]
  {
    var m := h.b.next[a];
    assert At(h.b, a) && At(h.b, m);
    MergeSound(h.b, a);
    forall c ensures NotBothFree(h.b, c) {
    }
    MergeCoalesced(h.b, a);
    MergeTotal(h.b, a, h.b.start, false, HDR);
    WithoutDistinct(h.frees, m);
    MergeAllocated(h.b, a);
  }

  lemma CutHalf(h: Heap, a: nat, n: nat)
    requires Core(h) && Live(h, a) && CanSplit(h.b, a, n) && n % 4 == 0
    ensures Half(Cut(h, a, n), n, false) && Allocated(Cut(h, a, n).b) == Allocated(h.b)[a := n]
    ensures Cut(h, a, n).b.next[n] == h.b.next[a]
  {
    var r := Cut(h, a, n);
    assert At(h.b, a) && Apart(h.b, a, n);
    SplitSound(h.b, a, n);
    SplitTotal(h.b, a, n, h.b.start, false, HDR);
    SplitCuts(h.b, a, n);
    forall c | c != n ensures NotBothFree(r.b, c) {
      assert NotBothFree(h.b, c) && (c in h.b.next ==> At(h.b, c));
    }
  }

  /** Give back the end of the live block at `a`, from `n` on. */
  ghost function Shrink(h: Heap, a: nat, n: nat): (r: Heap)
    requires Core(h) && Live(h, a) && CanSplit(h.b, a, n) && n % 4 == 0
  {
    CutHalf(h, a, n);
    MergeRightHalf(Cut(h, a, n), n, false);
    assert At(Cut(h, a, n).b, h.b.next[a]);
    Enlist(MergeRight(Cut(h, a, n), n), n)
  }

  lemma ShrinkInv(h: Heap, a: nat, n: nat)
    requires Inv(h) && Live(h, a) && CanSplit(h.b, a, n) && n % 4 == 0
    ensures Inv(Shrink(h, a, n)) && Allocated(Shrink(h, a, n).b) == Allocated(h.b)[a := n]
    ensures Shrink(h, a, n).available >= h.available
  {
    hide Half, Core;
    var c := Cut(h, a, n);
    CutHalf(h, a, n);
    MergeRightHalf(c, n, false);
    EnlistCore(MergeRight(c, n), n, false);
    HalfMerge(c, n);
  }

  lemma HalfMerge(h: Heap, c: nat)
    requires Half(h, c, false)
    ensures At(h.b, c) && Tiled(h.b)
    ensures Half(MergeRight(h, c), c, false) && Allocated(MergeRight(h, c).b) == Allocated(h.b)
  {
    assert At(h.b, c) && At(h.b, h.b.next[c]);
    MergeRightHalf(h, c, false);
    if !h.b.used[h.b.next[c]] {
      MergeAllocated(h.b, c);
    }
  }

  /** Extend the live block at `a` up to `n`, at the cost of its free successor. */
  ghost function Grow(h: Heap, a: nat, n: nat): (r: Heap)
    requires a in h.b.next && h.b.next[a] in h.b.next && h.b.next[h.b.next[a]] in h.b.next
  {
    var g := Enlist(Cut(Absorb(h, a), a, n), n);
    Account(g, g.available)
  }

  lemma CutCore(h: Heap, a: nat, n: nat)
    requires Core(h) && Live(h, a) && CanSplit(h.b, a, n) && n % 4 == 0
    requires h.b.next[a] in h.b.used && h.b.used[h.b.next[a]]
    ensures Core(Enlist(Cut(h, a, n), n)) && Allocated(Cut(h, a, n).b) == Allocated(h.b)[a := n]
  {
    hide Half, Core;
    var c := Cut(h, a, n);
    CutHalf(h, a, n);
    MergeRightHalf(c, n, false);
    assert MergeRight(c, n) == c;
    EnlistCore(c, n, false);
  }

  lemma AccountInv(h: Heap)
    requires Core(h)
    ensures Inv(Account(h, h.available))
  {
  }

  lemma GrowRoom(h: Heap, a: nat, n: nat)
    requires Core(h) && Live(h, a) && CanMerge(h.b, a) && !h.b.used[h.b.next[a]]
    requires h.b.next[a] <= n && n + HDR <= h.b.next[h.b.next[a]]
    ensures CanSplit(Absorb(h, a).b, a, n)
    ensures h.b.next[h.b.next[a]] in h.b.next
    ensures Absorb(h, a).b.next[a] in Absorb(h, a).b.used && Absorb(h, a).b.used[Absorb(h, a).b.next[a]]
    ensures Grow(h, a, n).available == h.available - (n - h.b.next[a])
  {
    FreeNeighbours(h.b, h.b.next[a]);
    assert At(h.b, h.b.next[a]) && At(h.b, a);
  }

  lemma GrowInv(h: Heap, a: nat, n: nat)
    requires Core(h) && Live(h, a) && CanMerge(h.b, a) && !h.b.used[h.b.next[a]] && n % 4 == 0
    requires h.b.next[a] <= n && n + HDR <= h.b.next[h.b.next[a]]
    ensures h.b.next[h.b.next[a]] in h.b.next
    ensures Inv(Grow(h, a, n)) && Allocated(Grow(h, a, n).b) == Allocated(h.b)[a := n]
  {
    hide Core, Inv, Absorb, Cut;
    var g := Absorb(h, a);
    AbsorbCore(h, a);
    GrowRoom(h, a, n);
    CutCore(g, a, n);
    AccountInv(Enlist(Cut(g, a, n), n));
  }
}

/** src/memheap.c: a memory heap object. */
module MemHeap {
  import opened Lists
  import opened Blocks
  import opened FreeRing
  import opened MemHeapModel
  import opened Payloads
  import opened Requests
  import opened Numbers

  function FirstFit(b: Blocks, s: seq<nat>, size: nat): (a: nat) {
    if s == [] then HEAD
    else if s[0] in b.next && Size(b, s[0]) >= size then s[0]
    else FirstFit(b, s[1..], size)
  }

  lemma {:induction false} FirstFitFound(b: Blocks, s: seq<nat>, size: nat)
    requires HEAD !in s
    ensures FirstFit(b, s, size) != HEAD ==>
              var a := FirstFit(b, s, size); a in s && a in b.next && Size(b, a) >= size
    ensures FirstFit(b, s, size) == HEAD <==> forall a :: a in s && a in b.next ==> Size(b, a) < size
  {
    if s == [] {
    } else {
      FirstFitFound(b, s[1..], size);
    }
  }

  lemma NoFitIff(h: Heap, size: nat)
    requires Inv(h)
    ensures FirstFit(h.b, h.frees, size) == HEAD <==> NoFit(h.b, size)
  {
    FreeHasNoHead(h);
    FirstFitFound(h.b, h.frees, size);
  }

  /** It is the first one in the order of the free list. */
  lemma {:induction false} FirstFitFirst(b: Blocks, s: seq<nat>, size: nat) returns (k: nat)
    requires FirstFit(b, s, size) != HEAD
    ensures k < |s| && s[k] == FirstFit(b, s, size)
    ensures forall j :: 0 <= j < k && s[j] in b.next ==> Size(b, s[j]) < size
  {
    if s[0] in b.next && Size(b, s[0]) >= size {
      k := 0;
    } else {
      k := FirstFitFirst(b, s[1..], size);
      k := k + 1;
    }
  }

  lemma {:induction false} TotalAtLeast(b: Blocks, c: nat, a: nat)
    requires Tiled(b) && c in b.next && a in b.next && c <= a && !b.used[a]
    ensures Size(b, a) <= Total(b, c, false, b.hdr)
    ensures 0 <= Total(b, c, false, b.hdr)
    decreases b.tail - c
  {
    assert At(b, c) && At(b, a) && Apart(b, c, a);
    TotalNonneg(b, b.next[c]);
    if c == a {
    } else {
      TotalAtLeast(b, b.next[c], a);
    }
  }

  lemma {:induction false} TotalNonneg(b: Blocks, c: nat)
    requires Tiled(b) && c in b.next
    ensures 0 <= Total(b, c, false, b.hdr)
    decreases b.tail - c
  {
    assert At(b, c);
    if c == b.tail {
    } else {
      TotalNonneg(b, b.next[c]);
    }
  }

  /** The allocator's strict comparison with the free byte count turns away a request that some
      free block could serve if and only if the request asks for every free byte of the heap. */
  lemma StrictTestMisses(h: Heap, a: nat, size: nat)
    requires Inv(h) && a in h.frees && a in h.b.next && size <= Size(h.b, a)
    ensures size >= h.available <==> size == h.available == Size(h.b, a)
  {
    assert At(h.b, a);
    TotalAtLeast(h.b, h.b.start, a);
  }

  /** The test of `rt_memheap_realloc` for room in a free successor, with its right-hand side in 32 bits. */
  predicate SeesRoom(room: int, size: nat) {
    room > (size + MIN) % WORD
  }

  /** The test is right exactly when the sum does not wrap, or wraps to something that is still too much. */
  lemma SeesRoomRight(room: int, size: nat)
    requires 0 <= room < WORD && size < WORD
    ensures (SeesRoom(room, size) <==> room > size + MIN) <==> size + MIN < WORD || room <= size + MIN - WORD
  {
    if size + MIN < WORD {
      assert (size + MIN) % WORD == size + MIN;
    } else {
      assert (size + MIN) % WORD == size + MIN - WORD;
    }
  }

  /** The bytes a block at `a` and a free successor have for payload. */
  function Room(b: Blocks, a: nat): int
    requires a in b.next && b.next[a] in b.next
  {
    Size(b, a) + Size(b, b.next[a])
  }

  /** Resizing the block at `a` does not meet the case in which the test is wrong. */
  predicate TestRight(b: Blocks, a: nat, size: nat) {
    a in b.next && b.next[a] in b.next && b.next[a] in b.used && Size(b, a) < size && !b.used[b.next[a]] ==>
      size + MIN < WORD || Room(b, a) <= size + MIN - WORD
  }

  /** Where growing the block at `a` puts the header of what is left of the successor, in 32 bits. */
  function GrowPlace(a: nat, size: nat): (n: nat) {
    (a + HDR + size) % WORD
  }

  /** Growing in place, when the test sees room, puts that header into the successor if and only if the
      test is right. */
  lemma GrowPlaceIff(h: Heap, a: nat, size: nat)
    requires Inv(h) && Live(h, a) && a in h.b.next && h.b.next[a] in h.b.next && h.b.next[a] in h.b.used
    requires h.b.tail + HDR <= WORD && size < WORD && Size(h.b, a) < size
    requires !h.b.used[h.b.next[a]] && SeesRoom(Room(h.b, a), size)
    ensures var n := GrowPlace(a, size);
            h.b.next[a] <= n && n + HDR <= h.b.next[h.b.next[a]] <==> TestRight(h.b, a, size)
  {
    LiveRoom(h, a);
    assert At(h.b, a) && At(h.b, h.b.next[a]) && At(h.b, h.b.next[h.b.next[a]]);
    if TestRight(h.b, a, size) {
      RoomSeen(h.b, a, size);
      assert GrowPlace(a, size) == a + HDR + size;
    } else {
      WrongPlace(h, a, size);
    }
  }

  /** When the test is wrong, the header goes over the end of the block's own header and the beginning
      of its payload. */
  lemma WrongPlace(h: Heap, a: nat, size: nat)
    requires Inv(h) && Live(h, a) && h.b.tail + HDR <= WORD && size < WORD && !TestRight(h.b, a, size)
    ensures SeesRoom(Room(h.b, a), size)
    ensures var n := GrowPlace(a, size);
            && a < n < a + HDR < n + HDR && n == a + HDR + size - WORD
            && !CanSplit(h.b, a, n) && InHeader(HDR, {n}, a + HDR)
  {
    LiveLinks(h, a);
    LiveRoom(h, a);
    assert (size + MIN) % WORD == size + MIN - WORD;
    assert GrowPlace(a, size) == a + HDR + size - WORD;
  }

  ghost predicate Shrunk(h: Heap, a: nat, n: nat, r: Heap) {
    Core(h) && Live(h, a) && CanSplit(h.b, a, n) && n % 4 == 0 && r == Shrink(h, a, n)
  }

  /** Where rt_memheap_realloc leaves the block. One that is large enough stays, cut off where a header and a
      minimal block fit in the surplus. Another grows into a free successor where that has the room, and is moved
      otherwise, which fails if and only if the heap has no more free bytes than that or no free block fits. */
  ghost predicate Outcome(b: Blocks, available: int, ptr: nat, size: nat, r: nat, c: Blocks)
    requires Tiled(b) && Tiled(c) && ptr >= HDR && ptr - HDR in b.next && ptr - HDR != b.tail
  {
    var a := ptr - HDR;
    assert At(b, a) && At(b, b.next[a]);
    if Size(b, a) >= size then
      r == ptr && if Size(b, a) > size + HDR + MIN then Allocated(c) == Allocated(b)[a := ptr + size] else c == b
    else if !b.used[b.next[a]] && Room(b, a) > size + MIN then
      r == ptr && Allocated(c) == Allocated(b)[a := ptr + size]
    else
      (r == 0 <==> size >= available || NoFit(b, size)) && (r != 0 ==> Placed(b, c, r, size))
  }

  class MemHeap {
    const start: nat
    const tail: nat
    var next: map<nat, nat>
    var prev: map<nat, nat>
    var used: map<nat, bool>
    var nextFree: map<nat, nat>
    var prevFree: map<nat, nat>
    var available: int
    var maxUsed: int
    /** The bytes of the pool, headers included. */
    var mem: map<nat, int>
    /** The order of the free list. */
    ghost var frees: seq<nat>
    /** The bytes in use after every change so far, the latest first. */
    ghost var usage: seq<int>

    ghost function B(): Blocks
      reads this
    {
      Blocks(start, tail, HDR, next, prev, used)
    }

    ghost function H(): Heap
      reads this
    {
      Heap(B(), frees, available, maxUsed)
    }

    ghost predicate Recorded()
      reads this
    {
      && usage != []
      && usage[0] == tail + HDR - start - available
      && maxUsed == Highest(usage)
    }

    ghost predicate Valid()
      reads this
    {
      && Inv(H())
      && Ring(nextFree, prevFree, frees)
      && Recorded()
      && start > 0
      && (forall i :: i in mem <==> start <= i < tail + HDR)
    }

    /** `rt_memheap_init` on the `size` bytes at `start`, which hold `bytes`. */
    constructor (start: nat, size: nat, bytes: map<nat, int>)
      requires start > 0 && start % 4 == 0 && size / 4 * 4 >= 2 * HDR
      requires forall i :: i in bytes <==> start <= i < start + size / 4 * 4
      ensures Valid()
      ensures this.start == start && tail == start + size / 4 * 4 - HDR
      ensures frees == [start] && Allocated(B()) == map[]
      ensures available == size / 4 * 4 - 2 * HDR && maxUsed == 2 * HDR
      ensures next == map[start := tail, tail := start] && used == map[start := false, tail := true]
    {
      var pool := size / 4 * 4;
      var last := start + pool - HDR;
      this.start, tail := start, last;
      available, maxUsed := pool - 2 * HDR, 2 * HDR;
      next := map[start := last, last := start];
      prev := map[start := last, last := start];
      used := map[start := false, last := true];
      nextFree := map[start := HEAD, HEAD := start];
      prevFree := map[start := HEAD, HEAD := start];
      mem := bytes;
      frees, usage := [start], [2 * HDR];
      new;
      FreshPool(B());
      assert Chain(nextFree, prevFree, start, []);
      assert [start][1..] == [];
    }

    /** Take a block off the free list. */
    method UnlinkFree(x: nat)
      requires Ring(nextFree, prevFree, frees) && x in frees
      modifies this`nextFree, this`prevFree, this`frees
      ensures Ring(nextFree, prevFree, frees) && frees == Without(old(frees), x)
    {
      Unlink(nextFree, prevFree, frees, x);
      var n, p := nextFree[x], prevFree[x];
      prevFree := prevFree[n := p];
      nextFree := nextFree[p := n];
      frees := Without(frees, x);
    }

    /** Put a block in front of the free list. */
    method PushFree(x: nat)
      requires Ring(nextFree, prevFree, frees) && x !in frees && x != HEAD
      modifies this`nextFree, this`prevFree, this`frees
      ensures Ring(nextFree, prevFree, frees) && frees == [x] + old(frees)
    {
      Push(nextFree, prevFree, frees, x);
      var first := nextFree[HEAD];
      nextFree := nextFree[x := first];
      prevFree := prevFree[x := HEAD];
      prevFree := prevFree[first := x];
      nextFree := nextFree[HEAD := x];
      frees := [x] + frees;
    }

    /** The search loop of `rt_memheap_alloc`. */
    method Search(size: nat) returns (found: bool, a: nat, freeSize: int)
      requires Valid() && size >= MIN
      ensures found <==> FirstFit(B(), frees, size) != HEAD
      ensures found ==> a == FirstFit(B(), frees, size) && a in next && freeSize == Size(B(), a)
    {
      a, freeSize := nextFree[HEAD], 0;
      ghost var rest := frees;
      while a != HEAD && freeSize < size
        invariant a == if rest == [] then HEAD else rest[0]
        invariant forall x :: x in rest ==> x in frees
        invariant rest != [] ==> Chain(nextFree, prevFree, rest[0], rest[1..])
        invariant FirstFit(B(), rest, size) == FirstFit(B(), frees, size)
        invariant freeSize >= size ==> rest != [] && a in next && freeSize == Size(B(), a)
        decreases |rest|, if freeSize < size then 1 else 0
      {
        FreeListed(H(), a);
        freeSize := next[a] - a - HDR;
        if freeSize < size {
          a := nextFree[a];
          rest := rest[1..];
        }
      }
      found := freeSize >= size;
    }

    /** Header writes may have changed any byte of any header, old or new. */
    method Scribble(was: set<nat>)
      modifies this`mem
      ensures mem.Keys == old(mem).Keys
      ensures forall i :: i in mem && !InHeader(HDR, was, i) && !InHeader(HDR, next.Keys, i) ==> mem[i] == old(mem[i])
    {
      mem := WriteHeaders(HDR, mem, was, next.Keys);
    }

    /** Remember the present use for the record. */
    ghost method Record()
      requires usage != [] && maxUsed == Max(Highest(usage), tail + HDR - start - available)
      modifies this`usage
      ensures Recorded() && usage == [tail + HDR - start - available] + old(usage)
    {
      assert ([tail + HDR - start - available] + usage)[1..] == usage;
      usage := [tail + HDR - start - available] + usage;
    }

    /** The end of every operation: the record, and the bytes that header writes touched. */
    method Finish(was: set<nat>, ghost b: Blocks)
      requires Inv(H()) && Ring(nextFree, prevFree, frees) && Sound(b) && was == b.next.Keys
      requires usage != [] && maxUsed == Max(Highest(usage), tail + HDR - start - available)
      requires start > 0 && forall i :: i in mem <==> start <= i < tail + HDR
      modifies this`mem, this`usage
      ensures Valid() && Preserved(HDR, old(mem), mem, Allocated(b), Allocated(B()))
      ensures usage == [tail + HDR - start - available] + old(usage)
    {
      hide Inv, Ring, Tiled, Coalesced;
      Record();
      Scribble(was);
      InvTiled(H());
      HeadersOnly(old(mem), mem, b, B());
    }

    /** Take a block off the free list and clear its links. */
    method DropFree(x: nat)
      requires Ring(nextFree, prevFree, frees) && x in frees
      modifies this`nextFree, this`prevFree, this`frees
      ensures Ring(nextFree, prevFree, frees) && frees == Without(old(frees), x)
    {
      UnlinkFree(x);
      Forget(nextFree, prevFree, frees, x);
      nextFree, prevFree := nextFree[x := 0], prevFree[x := 0];
    }

    /** Write a free block header at `n` and link it behind the block at `a`. */
    method Carve(a: nat, n: nat)
      requires a in next && a != n
      modifies this`next, this`prev, this`used
      ensures B() == Split(old(B()), a, n)
    {
      var m := next[a];
      used := used[n := false];
      prev := prev[n := a];
      next := next[n := m];
      prev := prev[m := n];
      next := next[a := n];
    }

    /** Count `n` more bytes as used. */
    method Charge(n: int)
      modifies this`available, this`maxUsed
      ensures available == old(available) - n
      ensures maxUsed == Max(old(maxUsed), tail + HDR - start - available)
    {
      available := available - n;
      if tail + HDR - start - available > maxUsed {
        maxUsed := tail + HDR - start - available;
      }
    }

    /** The two branches of `rt_memheap_alloc` that hand out the block at `a`. */
    method TakeBlock(a: nat, size: nat, freeSize: int)
      requires Valid() && a in frees && a in next && size % 4 == 0 && size <= freeSize == Size(B(), a)
      modifies this
      ensures Valid() && Preserved(HDR, old(mem), mem, Allocated(old(B())), Allocated(B()))
      ensures H() == Take(old(H()), a, size) && usage == [tail + HDR - start - available] + old(usage)
    {
      hide Inv, Ring, Tiled, Coalesced, Preserved, Highest, Split, Without;
      var was := next.Keys;
      ghost var h := H();
      InvTiled(h);
      FreeListed(h, a);
      TakeInv(h, a, size);
      TakeFresh(h, a, size);
      DropFree(a);
      if freeSize >= size + HDR + MIN {
        Carve(a, a + HDR + size);
        PushFree(a + HDR + size);
        Charge(size + HDR);
      } else {
        Charge(freeSize);
      }
      used := used[a := true];
      assert H() == Take(h, a, size);
      Finish(was, h.b);
    }

    /** `rt_memheap_alloc`; address 0 stands for `RT_NULL`. */
    method Alloc(request: nat) returns (ptr: nat)
      requires Valid() && request < WORD
      modifies this
      ensures Valid() && Preserved(HDR, old(mem), mem, Allocated(old(B())), Allocated(B()))
      ensures ptr == 0 <==> Round(request) >= old(available) || NoFit(old(B()), Round(request))
      ensures ptr == 0 ==> H() == old(H()) && mem == old(mem) && usage == old(usage)
      ensures ptr != 0 ==>
                && ptr >= HDR && ptr - HDR == FirstFit(old(B()), old(frees), Round(request))
                && ptr - HDR in old(next)
                && H() == Take(old(H()), ptr - HDR, Round(request))
                && HandedOut(old(B()), B(), ptr, Round(request))
                && usage == [tail + HDR - start - available] + old(usage)
    {
      hide Inv, Core, Ring, Tiled, Coalesced, Preserved, Take, FirstFit, Highest, NoFit;
      var size := Round(request);
      ghost var h := H();
      InvTiled(h);
      PreservedSame(HDR, mem, Allocated(B()), Allocated(B()));
      NoFitIff(h, size);
      FreeHasNoHead(h);
      if size < available {
        var found, a, freeSize := Search(size);
        if found {
          FirstFitFound(B(), frees, size);
          TakeBlock(a, size, freeSize);
          TakeAllocated(h, a, size);
          FreeListed(h, a);
          return a + HDR;
        }
      }
      return 0;
    }

    /** Unlink the successor of `a` from the block list and forget its header. */
    method Fuse(a: nat)
      requires a in next && next[a] in next && next[a] != a && next[next[a]] != next[a]
      modifies this`next, this`prev, this`used
      ensures B() == Merge(old(B()), a)
    {
      var m := next[a];
      next := next[a := next[m]] - {m};
      prev := prev[next[a] := a] - {m};
      used := used - {m};
    }

    /** The part of `rt_memheap_free` up to the merge with the previous neighbour. */
    method FreeLeft(a: nat) returns (c: nat, listed: bool)
      requires Core(H()) && Live(H(), a)
      modifies this`next, this`prev, this`used, this`available
      ensures At(old(B()), a) && At(old(B()), old(B()).prev[a])
      ensures H() == MergeLeft(old(H()), a) && c == LeftEnd(old(H()), a) && listed == !old(used[prev[a]])
    {
      LiveLinks(H(), a);
      assert At(B(), a) && At(B(), prev[a]);
      hide Core;
      used := used[a := false];
      available := available + (next[a] - a - HDR);
      c, listed := a, false;
      if !used[prev[a]] {
        available := available + HDR;
        c, listed := prev[a], true;
        Fuse(c);
      }
    }

    /** The merge with the next neighbour. */
    method FreeRight(c: nat, ghost listed: bool)
      requires Half(H(), c, listed) && Ring(nextFree, prevFree, frees)
      modifies this`next, this`prev, this`used, this`available, this`nextFree, this`prevFree, this`frees
      ensures At(old(B()), c)
      ensures Ring(nextFree, prevFree, frees) && H() == MergeRight(old(H()), c)
    {
      assert At(B(), c) && At(B(), next[c]);
      hide Ring;
      if !used[next[c]] {
        available := available + HDR;
        var m := next[c];
        UnlinkFree(m);
        Fuse(c);
      }
    }

    /** The header and list work of `rt_memheap_free`. */
    method FreeBlock(a: nat)
      requires Core(H()) && Live(H(), a) && Ring(nextFree, prevFree, frees)
      modifies this`next, this`prev, this`used, this`available, this`nextFree, this`prevFree, this`frees
      ensures Ring(nextFree, prevFree, frees) && H() == Release(old(H()), a)
    {
      hide Core, Half, Ring, Tiled, Coalesced, MergeLeft, MergeRight, Without;
      ghost var h := H();
      MergeLeftHalf(h, a);
      var c, listed := FreeLeft(a);
      MergeRightHalf(H(), c, listed);
      FreeRight(c, listed);
      if !listed {
        HalfUnlisted(H(), c);
        PushFree(c);
      }
    }

    /** `rt_memheap_free`. */
    method Free(ptr: nat)
      requires Valid() && (ptr != 0 ==> ptr >= HDR && Live(H(), ptr - HDR))
      modifies this
      ensures Valid() && Preserved(HDR, old(mem), mem, Allocated(old(B())), Allocated(B()))
      ensures ptr == 0 ==> H() == old(H()) && mem == old(mem) && usage == old(usage)
      ensures ptr != 0 ==>
                && H() == Release(old(H()), ptr - HDR) && Allocated(B()) == Allocated(old(B())) - {ptr - HDR}
                && usage == [tail + HDR - start - available] + old(usage)
    {
      hide Inv, Core, Ring, Tiled, Coalesced, Preserved, Release, Allocated;
      InvTiled(H());
      if ptr == 0 {
        PreservedSame(HDR, mem, Allocated(B()), Allocated(B()));
        return;
      }
      var was := next.Keys;
      ghost var h := H();
      LiveLinks(h, ptr - HDR);
      ReleaseInv(h, ptr - HDR);
      ReleaseAllocated(h, ptr - HDR);
      FreeBlock(ptr - HDR);
      Finish(was, h.b);
    }

    /** The header and list work of an in-place extension up to `n`. */
    method Stretch(a: nat, n: nat)
      requires Core(H()) && Live(H(), a) && CanMerge(B(), a) && !used[next[a]] && n % 4 == 0
      requires next[a] <= n && n + HDR <= next[next[a]] && Ring(nextFree, prevFree, frees)
      modifies this`next, this`prev, this`used, this`available, this`maxUsed, this`nextFree, this`prevFree, this`frees
      ensures old(next[next[a]]) in old(next)
      ensures Ring(nextFree, prevFree, frees) && H() == Grow(old(H()), a, n)
    {
      var m := next[a];
      GrowNumbers(H(), a, n);
      hide Core, Ring, Merge, Split, Without;
      Charge(n - m);
      UnlinkFree(m);
      Fuse(a);
      Carve(a, n);
      PushFree(n);
    }

    /** The in-place extension of `rt_memheap_realloc`. */
    method GrowBlock(a: nat, n: nat)
      requires Valid() && Live(H(), a) && CanMerge(B(), a) && !used[next[a]] && n % 4 == 0
      requires next[a] <= n && n + HDR <= next[next[a]]
      modifies this
      ensures old(next[next[a]]) in old(next)
      ensures Valid() && Preserved(HDR, old(mem), mem, Allocated(old(B())), Allocated(B()))
      ensures H() == Grow(old(H()), a, n) && usage == [tail + HDR - start - available] + old(usage)
    {
      hide Inv, Core, Ring, Tiled, Coalesced, Preserved, Grow;
      var was := next.Keys;
      ghost var h := H();
      InvTiled(h);
      GrowInv(h, a, n);
      Stretch(a, n);
      assert maxUsed == Max(h.maxUsed, tail + HDR - start - available) by { GrowMax(h, a, n); }
      Finish(was, h.b);
    }

    /** The header and list work of cutting a block off at `n`. */
    method Trim(a: nat, n: nat)
      requires Core(H()) && Live(H(), a) && CanSplit(B(), a, n) && n % 4 == 0 && Ring(nextFree, prevFree, frees)
      modifies this`next, this`prev, this`used, this`available, this`nextFree, this`prevFree, this`frees
      ensures Ring(nextFree, prevFree, frees) && H() == Shrink(old(H()), a, n)
    {
      ghost var h := H();
      CutNumbers(h, a, n);
      hide Core, Half, Ring, Merge, Split, Without;
      var m := next[a];
      Carve(a, n);
      if !used[next[n]] {
        available := available - (next[m] - m - HDR);
        Fuse(n);
        UnlinkFree(m);
      }
      PushFree(n);
      available := available + (next[n] - n - HDR);
    }

    /** The shrinking branch of `rt_memheap_realloc`. */
    method ShrinkBlock(a: nat, n: nat)
      requires Valid() && Live(H(), a) && CanSplit(B(), a, n) && n % 4 == 0
      modifies this
      ensures Valid() && Preserved(HDR, old(mem), mem, Allocated(old(B())), Allocated(B()))
      ensures H() == Shrink(old(H()), a, n) && usage == [tail + HDR - start - available] + old(usage)
    {
      hide Inv, Core, Ring, Tiled, Coalesced, Preserved, Shrink;
      var was := next.Keys;
      ghost var h := H();
      InvTiled(h);
      ShrinkInv(h, a, n);
      Trim(a, n);
      Finish(was, h.b);
    }

    /** `rt_memcpy` between payloads. */
    method Copy(dst: nat, src: nat, n: nat)
      requires forall i :: dst <= i < dst + n ==> i in mem
      requires forall i :: src <= i < src + n ==> i in mem
      requires dst + n <= src || src + n <= dst
      modifies this`mem
      ensures mem.Keys == old(mem).Keys
      ensures Carried(old(mem), mem, src, dst, n)
      ensures forall i :: i in mem && !(dst <= i < dst + n) ==> mem[i] == old(mem)[i]
    {
      mem := CopyBytes(mem, dst, src, n);
    }

    /** Copy the payload of one live block to another and free the first. */
    method Transfer(ptr: nat, r: nat, n: nat)
      requires Valid() && ptr >= HDR && r >= HDR && ptr != r
      requires ptr - HDR in Allocated(B()) && Allocated(B())[ptr - HDR] == ptr + n
      requires r - HDR in Allocated(B()) && r + n <= Allocated(B())[r - HDR]
      modifies this
      ensures Valid() && Allocated(B()) == Allocated(old(B())) - {ptr - HDR}
      ensures Carried(old(mem), mem, ptr, r, n)
      ensures OthersKept(HDR, old(mem), mem, Allocated(old(B())) - {r - HDR}, ptr - HDR)
    {
      hide Inv, Core, Ring, Tiled, Coalesced, Preserved, Release, Carried, OthersKept, Highest, ClearOf;
      ghost var h, m := H(), mem;
      InvTiled(h);
      PayloadsApart(h.b, ptr - HDR, r - HDR);
      PayloadsApart(h.b, r - HDR, ptr - HDR);
      AllClear(h.b, r - HDR);
      Copy(r, ptr, n);
      ghost var m1 := mem;
      ReleaseAllocated(h, ptr - HDR);
      Free(ptr);
      TransferKeeps(HDR, m, m1, mem, Allocated(h.b), ptr - HDR, r - HDR, n);
    }

    /** Allocation of a rounded size, in terms of the blocks handed out. */
    method AllocSized(size: nat) returns (ptr: nat)
      requires Valid() && size < WORD && Round(size) == size
      modifies this
      ensures Valid() && Preserved(HDR, old(mem), mem, Allocated(old(B())), Allocated(B()))
      ensures ptr == 0 <==> size >= old(available) || NoFit(old(B()), size)
      ensures ptr == 0 ==> H() == old(H()) && mem == old(mem)
      ensures ptr != 0 ==> HandedOut(old(B()), B(), ptr, size)
    {
      hide Inv, Core, Ring, Tiled, Coalesced, Preserved, Take, FirstFit, Highest, NoFit, HandedOut;
      ptr := Alloc(size);
    }

    /** The branch of `rt_memheap_realloc` that moves the payload to another block. */
    method Move(ptr: nat, size: nat) returns (r: nat)
      requires Valid() && ptr >= HDR && Live(H(), ptr - HDR) && Round(size) == size < WORD
               && Size(B(), ptr - HDR) < size
      modifies this
      ensures Valid()
      ensures r == 0 <==> size >= old(available) || NoFit(old(B()), size)
      ensures r == 0 ==> H() == old(H()) && mem == old(mem)
      ensures r != 0 ==> Resized(old(B()), old(mem), ptr, B(), mem, r, size) && Placed(old(B()), B(), r, size)
    {
      hide Inv, Core, Ring, Tiled, Coalesced, Preserved, Carried, OthersKept, FirstFit, Highest, Resized, NoFit;
      ghost var b, m, p := B(), mem, ptr - HDR;
      InvTiled(H());
      LiveLinks(H(), p);
      assert p in Allocated(b);
      var n := next[ptr - HDR] - ptr;
      r := AllocSized(size);
      if r != 0 {
        ghost var m1, c := mem, B();
        InvTiled(H());
        assert p in Allocated(c) && Allocated(c)[p] == Allocated(b)[p];
        Transfer(ptr, r, n);
        InvTiled(H());
        MoveResizes(b, m, c, m1, B(), mem, p, r - HDR, size);
      }
    }

    /** `rt_memheap_realloc`, except where its test for room in the successor is wrong. Requests above
        2^32 - 4 are taken for the minimum. */
    method Realloc(ptr: nat, request: nat) returns (r: nat)
      requires Valid() && (ptr != 0 ==> ptr >= HDR && Live(H(), ptr - HDR))
      requires request < WORD && (ptr != 0 && request != 0 ==> TestRight(B(), ptr - HDR, Round(request)))
      modifies this
      ensures Valid()
      ensures request == 0 ==>
                && r == 0 && Preserved(HDR, old(mem), mem, Allocated(old(B())), Allocated(B()))
                && if ptr == 0 then H() == old(H()) && mem == old(mem) else H() == Release(old(H()), ptr - HDR)
      ensures request != 0 && r == 0 ==> H() == old(H()) && mem == old(mem)
      ensures request != 0 && ptr == 0 ==>
                && (r == 0 <==> Round(request) >= old(available) || NoFit(old(B()), Round(request)))
                && (r != 0 ==> HandedOut(old(B()), B(), r, Round(request)))
                && Preserved(HDR, old(mem), mem, Allocated(old(B())), Allocated(B()))
      ensures request != 0 && ptr != 0 ==> Outcome(old(B()), old(available), ptr, Round(request), r, B())
      ensures r != 0 && ptr != 0 ==>
                && Resized(old(B()), old(mem), ptr, B(), mem, r, Round(request))
                && (request <= WORD - 4 ==> Resized(old(B()), old(mem), ptr, B(), mem, r, request))
      ensures ptr != 0 && request > WORD - 4 && Size(old(B()), ptr - HDR) > HDR + 2 * MIN ==>
                r == ptr && Shrunk(old(H()), ptr - HDR, ptr + MIN, H())
    {
      hide Inv, Core, Ring, Tiled, Coalesced, Carried, OthersKept, Highest, FirstFit, Round, Allocated, Resized, Shrunk,
           NoFit, HandedOut, Outcome, Preserved;
      RoundCovers(request);
      RoundWraps(request);
      RoundTwice(request);
      r := 0;
      if request == 0 {
        Free(ptr);
        return;
      }
      var size := Round(request);
      if ptr == 0 {
        r := AllocSized(size);
        return;
      }
      LiveLinks(H(), ptr - HDR);
      InvTiled(H());
      r := Resize(ptr, size);
      if r != 0 {
        InvTiled(H());
        ResizedLess(old(B()), old(mem), ptr, B(), mem, r, size, if request <= size then request else size);
      }
    }

    /** `rt_memheap_realloc` of a live block to a rounded size. */
    method Resize(ptr: nat, size: nat) returns (r: nat)
      requires Valid() && ptr >= HDR && Live(H(), ptr - HDR) && Round(size) == size < WORD
               && TestRight(B(), ptr - HDR, size)
      modifies this
      ensures Valid()
      ensures r == 0 ==> H() == old(H()) && mem == old(mem)
      ensures r != 0 ==> Resized(old(B()), old(mem), ptr, B(), mem, r, size)
      ensures Outcome(old(B()), old(available), ptr, size, r, B())
      ensures Size(old(B()), ptr - HDR) > size + HDR + MIN ==>
                r == ptr && Shrunk(old(H()), ptr - HDR, ptr + size, H())
    {
      hide Inv, Core, Ring, Tiled, Coalesced, Preserved, Carried, OthersKept, Highest, FirstFit, Round, Allocated,
           Resized, Shrunk, Outcome;
      LiveLinks(H(), ptr - HDR);
      if size > next[ptr - HDR] - ptr {
        r := Enlarge(ptr, size);
      } else {
        r := Reduce(ptr, size);
      }
    }

    /** The growing half: into a free successor where that has the room, else to another block. */
    method Enlarge(ptr: nat, size: nat) returns (r: nat)
      requires Valid() && ptr >= HDR && Live(H(), ptr - HDR) && Round(size) == size < WORD
               && TestRight(B(), ptr - HDR, size)
      requires Size(B(), ptr - HDR) < size
      modifies this
      ensures Valid()
      ensures r == 0 ==> H() == old(H()) && mem == old(mem)
      ensures r != 0 ==> Resized(old(B()), old(mem), ptr, B(), mem, r, size)
      ensures Outcome(old(B()), old(available), ptr, size, r, B())
    {
      hide Inv, Core, Ring, Tiled, Coalesced, Preserved, Carried, OthersKept, Highest, Grow, FirstFit, NoFit;
      RoundAligned(size);
      hide Round;
      var a := ptr - HDR;
      ghost var h, m := H(), mem;
      InvTiled(h);
      LiveLinks(h, a);
      LiveRoom(h, a);
      var oldsize, q := next[a] - ptr, next[a];
      if !used[q] {
        var nextsize := next[q] - q - HDR;
        RoomSeen(B(), a, size);
        if SeesRoom(nextsize + oldsize, size) {
          GrowInv(h, a, ptr + size);
          GrowBlock(a, ptr + size);
          InPlace(HDR, m, mem, Allocated(h.b), Allocated(B()), a, oldsize);
          return ptr;
        }
      }
      r := Move(ptr, size);
    }

    /** The shrinking half: the surplus is cut off where a header and a minimal block fit in it. */
    method Reduce(ptr: nat, size: nat) returns (r: nat)
      requires Valid() && ptr >= HDR && Live(H(), ptr - HDR) && Round(size) == size < WORD
      requires Size(B(), ptr - HDR) >= size
      modifies this
      ensures Valid()
      ensures r == ptr && Resized(old(B()), old(mem), ptr, B(), mem, r, size)
      ensures Outcome(old(B()), old(available), ptr, size, r, B())
      ensures if size + HDR + MIN < Size(old(B()), ptr - HDR) then Shrunk(old(H()), ptr - HDR, ptr + size, H())
              else H() == old(H())
    {
      hide Inv, Core, Ring, Tiled, Coalesced, Preserved, Carried, OthersKept, Highest, Shrink;
      RoundAligned(size);
      hide Round;
      var a := ptr - HDR;
      ghost var h, m := H(), mem;
      InvTiled(h);
      LiveLinks(h, a);
      LiveRoom(h, a);
      var oldsize := next[a] - ptr;
      if size + HDR + MIN < oldsize {
        ShrinkInv(h, a, ptr + size);
        ShrinkBlock(a, ptr + size);
      }
      InPlace(HDR, m, mem, Allocated(h.b), Allocated(B()), a, size);
      return ptr;
    }
  }

  lemma RoundTwice(request: nat)
    requires request < WORD
    ensures Round(Round(request)) == Round(request) < WORD
  {
    AlignSame(Round(request));
    hide Align;
  }

  /** Where the test is not wrong, it tells whether there is room. */
  lemma RoomSeen(b: Blocks, a: nat, size: nat)
    requires a in b.next && b.next[a] in b.next && b.next[a] in b.used && Size(b, a) < size && !b.used[b.next[a]]
    requires size < WORD && TestRight(b, a, size)
    ensures SeesRoom(Room(b, a), size) <==> Room(b, a) > size + MIN
  {
    if size + MIN < WORD {
      assert (size + MIN) % WORD == size + MIN;
    } else {
      assert (size + MIN) % WORD == size + MIN - WORD;
    }
  }

  lemma RoundAligned(size: nat)
    requires Round(size) == size
    ensures size % 4 == 0
  {
  }

  /** What a resize needs to know about the block and a free successor. */
  lemma LiveRoom(h: Heap, a: nat)
    requires Inv(h) && Live(h, a) && a in h.b.next
    ensures a in Allocated(h.b) && Allocated(h.b)[a] == h.b.next[a]
    ensures a % 4 == 0 && h.b.next[a] % 4 == 0 && h.b.start <= a && h.b.next[a] <= h.b.tail
    ensures h.b.next[a] in h.b.next && (!h.b.used[h.b.next[a]] ==> CanMerge(h.b, a))
    ensures !h.b.used[h.b.next[a]] ==> h.b.next[a] + HDR <= h.b.next[h.b.next[a]]
  {
    assert At(h.b, a) && At(h.b, h.b.next[a]);
  }

  /** A heap of 1000 bytes with one block. */
  method OneBlock(start: nat, bytes: map<nat, int>) returns (h: MemHeap, ptr: nat)
    requires start > 0 && start % 4 == 0 && forall i :: i in bytes <==> start <= i < start + 1000
    ensures fresh(h) && h.Valid() && h.tail == start + 976 && ptr == start + HDR && Live(h.H(), start)
    ensures start in h.next && h.next[start] == ptr + 100 && h.next[start] in h.next && h.next[start] in h.used
    ensures !h.used[h.next[start]] && h.next[h.next[start]] == h.tail
  {
    hide Inv, Core, Ring, Tiled, Coalesced, Preserved, Highest;
    h := new MemHeap(start, 1000, bytes);
    assert !h.used[start] && Size(h.B(), start) >= 100;
    ptr := h.Alloc(100);
  }

  /** A live block, of which more than 2^32 - 4 bytes are requested, shrinks to 12 bytes. */
  method WrappedRequestShrinks(start: nat, bytes: map<nat, int>) returns (h: MemHeap, ptr: nat, r: nat, ghost was: Heap)
    requires start > 0 && start % 4 == 0 && forall i :: i in bytes <==> start <= i < start + 1000
    ensures fresh(h) && h.Valid() && Inv(was) && ptr >= HDR && Live(was, ptr - HDR)
            && was.b.next[ptr - HDR] == ptr + 100
    ensures r == ptr && h.H() == Shrink(was, ptr - HDR, ptr + 12) && h.next[ptr - HDR] == ptr + 12
  {
    hide Inv, Core, Ring, Tiled, Coalesced, Preserved, Highest, Round;
    h, ptr := OneBlock(start, bytes);
    was := h.H();
    RoundWraps(WORD - 1);
    r := h.Realloc(ptr, WORD - 1);
  }

  /** A request of 2^32 - 4 bytes for such a block passes the test, and the header would go to `ptr - 4`. */
  method WrongTest(start: nat, bytes: map<nat, int>) returns (h: MemHeap, ptr: nat)
    requires 0 < start < WORD - 1000 && start % 4 == 0 && forall i :: i in bytes <==> start <= i < start + 1000
    ensures fresh(h) && h.Valid() && ptr >= HDR && Live(h.H(), ptr - HDR)
    ensures !TestRight(h.B(), ptr - HDR, Round(WORD - 4)) && GrowPlace(ptr - HDR, Round(WORD - 4)) == ptr - 4
  {
    hide Inv, Core, Ring, Tiled, Coalesced, Preserved, Highest;
    h, ptr := OneBlock(start, bytes);
    assert Round(WORD - 4) == WORD - 4;
    WrongPlace(h.H(), ptr - HDR, WORD - 4);
  }

  lemma FreeHasNoHead(h: Heap)
    requires Inv(h)
    ensures HEAD !in h.frees
  {
    if HEAD in h.frees {
      FreeListed(h, HEAD);
    }
  }

  lemma CutNumbers(h: Heap, a: nat, n: nat)
    requires Core(h) && Live(h, a) && CanSplit(h.b, a, n) && n % 4 == 0
    ensures a != n && n != HEAD && n !in h.b.next && n !in h.frees
    ensures var m, c := h.b.next[a], Cut(h, a, n);
            && c.b.next[n] == m && m in c.b.next && m in h.b.next && m != n
            && c.b.used[m] == h.b.used[m]
            && (!h.b.used[m] ==> m in h.frees && c.b.next[m] == h.b.next[m] && h.b.next[m] != m
                                 && Merge(c.b, n).next[n] == h.b.next[m])
  {
    assert At(h.b, a) && At(h.b, h.b.next[a]);
    SplitTiled(h.b, a, n);
  }

  lemma GrowMax(h: Heap, a: nat, n: nat)
    requires a in h.b.next && h.b.next[a] in h.b.next && h.b.next[h.b.next[a]] in h.b.next
    ensures Grow(h, a, n).maxUsed == Max(h.maxUsed, h.PoolSize() - Grow(h, a, n).available)
  {
  }

  /** The numbers behind an extension: what it charges, and that its new header is new. */
  lemma GrowNumbers(h: Heap, a: nat, n: nat)
    requires Core(h) && Live(h, a) && CanMerge(h.b, a) && !h.b.used[h.b.next[a]] && n % 4 == 0
    requires h.b.next[a] <= n && n + HDR <= h.b.next[h.b.next[a]]
    ensures h.b.next[a] != a && h.b.next[h.b.next[a]] != h.b.next[a]
    ensures h.b.next[h.b.next[a]] in h.b.next && a != n && n != HEAD
    ensures h.b.next[a] in h.frees && n !in Without(h.frees, h.b.next[a])
    ensures Grow(h, a, n).available == h.available - (n - h.b.next[a])
  {
    assert At(h.b, a) && At(h.b, h.b.next[a]) && Apart(h.b, h.b.next[a], n);
    GrowRoom(h, a, n);
  }

  lemma HalfUnlisted(h: Heap, c: nat)
    requires Half(h, c, false)
    ensures c !in h.frees && c != HEAD
  {
  }

  /** A split puts its new header where there was none. */
  lemma TakeFresh(h: Heap, a: nat, size: nat)
    requires Inv(h) && a in h.frees && a in h.b.next && size % 4 == 0
    ensures Size(h.b, a) >= size + HDR + MIN ==> a + HDR + size !in h.b.next && a + HDR + size !in h.frees
    ensures a + HDR + size != HEAD
  {
    FreeListed(h, a);
    if Size(h.b, a) >= size + HDR + MIN {
      SplitTiled(h.b, a, a + HDR + size);
    }
  }

  lemma FreshPool(b: Blocks)
    requires b.hdr == HDR && b.start + HDR <= b.tail && b.start % 4 == 0 && b.tail % 4 == 0
    requires b.next == map[b.start := b.tail, b.tail := b.start] && b.prev == b.next
    requires b.used == map[b.start := false, b.tail := true]
    ensures Sound(b) && Coalesced(b) && Allocated(b) == map[] && ListsFree([b.start], b)
    ensures Total(b, b.start, false, HDR) == b.tail - b.start - HDR
  {
    forall a | a in b.next ensures At(b, a) {
    }
    forall a, c ensures Apart(b, a, c) {
    }
    assert Total(b, b.tail, false, HDR) == 0;
    assert [b.start][1..] == [];
  }
}
