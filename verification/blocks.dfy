/** Address-ordered block lists with in-band headers: the part that src/memheap.c and src/mem.c share. */
module Blocks {

  /** The headers of a pool: links to the neighbouring headers and the used flag, by address.
      `tail` is the header that closes the pool; `hdr` is the size of a header. */
  datatype Blocks = Blocks(start: nat, tail: nat, hdr: nat, next: map<nat, nat>, prev: map<nat, nat>,
                           used: map<nat, bool>)

  /** The header at `a` lies in the pool and agrees with its neighbours. */
  ghost predicate At(b: Blocks, a: nat) {
    && a in b.next && a in b.prev && a in b.used
    && b.start <= a <= b.tail
    && (a != b.tail ==>
          a + b.hdr <= b.next[a] && b.next[a] in b.next && b.next[a] in b.prev && b.prev[b.next[a]] == a)
    && (a != b.start ==> b.prev[a] in b.next && b.prev[a] < a && b.next[b.prev[a]] == a)
  }

  /** Nothing lies between a header and its successor. */
  ghost predicate Apart(b: Blocks, a: nat, c: nat) {
    a in b.next && c in b.next && a < c ==> b.next[a] <= c
  }

  /** The headers cut the pool into consecutive blocks and the links follow the addresses. */
  ghost predicate Tiled(b: Blocks) {
    && b.hdr > 0
    && b.prev.Keys == b.next.Keys == b.used.Keys
    && b.start in b.next && b.tail in b.next && b.used[b.tail] && b.start < b.tail
    && (forall a {:trigger At(b, a)} :: a in b.next ==> At(b, a))
    && (forall a, c {:trigger Apart(b, a, c)} :: Apart(b, a, c))
  }

  ghost predicate NotBothFree(b: Blocks, a: nat) {
    a in b.next && a != b.tail && b.next[a] in b.used && a in b.used ==> b.used[a] || b.used[b.next[a]]
  }

  /** No two neighbouring blocks are free. */
  ghost predicate Coalesced(b: Blocks) {
    forall a {:trigger NotBothFree(b, a)} :: NotBothFree(b, a)
  }

  function Size(b: Blocks, a: nat): (n: int)
    requires a in b.next
  {
    b.next[a] - a - b.hdr
  }

  predicate CanSplit(b: Blocks, h: nat, n: nat) {
    h in b.next && h != b.tail && h + b.hdr <= n && n + b.hdr <= b.next[h]
  }

  /** Write a free header at `n` inside the block at `h`. */
  function Split(b: Blocks, h: nat, n: nat): (r: Blocks)
    requires h in b.next
  {
    var m := b.next[h];
    b.(next := b.next[n := m][h := n], prev := b.prev[n := h][m := n], used := b.used[n := false])
  }

  /** Let the block at `h` swallow its successor. */
  function Merge(b: Blocks, h: nat): (r: Blocks)
    requires h in b.next && b.next[h] in b.next
  {
    var m := b.next[h];
    b.(next := (b.next - {m})[h := b.next[m]], prev := (b.prev - {m})[b.next[m] := h], used := b.used - {m})
  }

  function Mark(b: Blocks, h: nat, v: bool): (r: Blocks) {
    b.(used := b.used[h := v])
  }

  lemma SplitAt(b: Blocks, h: nat, n: nat, a: nat)
    requires Tiled(b) && CanSplit(b, h, n) && a in Split(b, h, n).next
    ensures At(Split(b, h, n), a)
  {
    assert At(b, h) && At(b, b.next[h]) && Apart(b, h, n);
    assert a != n ==> At(b, a);
  }

  lemma SplitApart(b: Blocks, h: nat, n: nat, a: nat, c: nat)
    requires Tiled(b) && CanSplit(b, h, n)
    ensures Apart(Split(b, h, n), a, c)
  {
    assert At(b, h) && Apart(b, a, c) && Apart(b, h, c) && Apart(b, a, h) && Apart(b, h, a);
  }

  lemma SplitTiled(b: Blocks, h: nat, n: nat)
    requires Tiled(b) && CanSplit(b, h, n)
    ensures n !in b.next
    ensures Tiled(Split(b, h, n))
  {
    var r := Split(b, h, n);
    assert At(b, h) && Apart(b, h, n);
    forall a | a in r.next ensures At(r, a) {
      SplitAt(b, h, n, a);
    }
    forall a, c ensures Apart(r, a, c) {
      SplitApart(b, h, n, a, c);
    }
  }

  predicate CanMerge(b: Blocks, h: nat) {
    h in b.next && h != b.tail && b.next[h] in b.next && b.next[h] != b.tail
  }

  lemma MergeAt(b: Blocks, h: nat, a: nat)
    requires Tiled(b) && CanMerge(b, h) && a in Merge(b, h).next
    ensures At(Merge(b, h), a)
  {
    assert At(b, h) && At(b, b.next[h]) && At(b, a);
  }

  lemma MergeApart(b: Blocks, h: nat, a: nat, c: nat)
    requires Tiled(b) && CanMerge(b, h)
    ensures Apart(Merge(b, h), a, c)
  {
    assert At(b, h) && Apart(b, a, c) && Apart(b, b.next[h], c) && Apart(b, h, c);
  }

  lemma MergeTiled(b: Blocks, h: nat)
    requires Tiled(b) && CanMerge(b, h)
    ensures Tiled(Merge(b, h))
  {
    var r := Merge(b, h);
    assert At(b, h) && At(b, b.next[h]);
    forall a | a in r.next ensures At(r, a) {
      MergeAt(b, h, a);
    }
    forall a, c ensures Apart(r, a, c) {
      MergeApart(b, h, a, c);
    }
  }

  lemma MergeUndoesSplit(b: Blocks, h: nat, n: nat)
    requires Tiled(b) && CanSplit(b, h, n)
    ensures CanMerge(Split(b, h, n), h)
    ensures Merge(Split(b, h, n), h) == b
  {
    assert At(b, h) && Apart(b, h, n);
  }

  lemma MarkTiled(b: Blocks, h: nat, v: bool)
    requires Tiled(b) && h in b.next && h != b.tail
    ensures Tiled(Mark(b, h, v))
  {
    var r := Mark(b, h, v);
    forall a | a in r.next ensures At(r, a) {
      assert At(b, a);
    }
    forall a, c ensures Apart(r, a, c) {
      assert Apart(b, a, c);
    }
  }

  ghost predicate Even(b: Blocks) {
    forall a :: a in b.next ==> a % 4 == 0
  }

  /** Where the first header points back to, and where the last one points on to. */
  ghost predicate SameEnds(b: Blocks, c: Blocks)
    requires Tiled(b) && Tiled(c)
  {
    c.start == b.start && c.tail == b.tail && c.prev[c.start] == b.prev[b.start] && c.next[c.tail] == b.next[b.tail]
  }

  lemma SplitSound(b: Blocks, h: nat, n: nat)
    requires Tiled(b) && Even(b) && CanSplit(b, h, n) && n % 4 == 0
    ensures Tiled(Split(b, h, n)) && Even(Split(b, h, n)) && SameEnds(b, Split(b, h, n)) && n !in b.next
  {
    SplitTiled(b, h, n);
    assert At(b, h);
  }

  lemma MergeSound(b: Blocks, h: nat)
    requires Tiled(b) && Even(b) && CanMerge(b, h)
    ensures Tiled(Merge(b, h)) && Even(Merge(b, h)) && SameEnds(b, Merge(b, h))
  {
    MergeTiled(b, h);
    assert At(b, h) && At(b, b.next[h]) && At(b, b.next[b.next[h]]);
  }

  lemma MarkSound(b: Blocks, h: nat, v: bool)
    requires Tiled(b) && Even(b) && h in b.next && h != b.tail
    ensures Tiled(Mark(b, h, v)) && Even(Mark(b, h, v)) && SameEnds(b, Mark(b, h, v))
  {
    MarkTiled(b, h, v);
  }

  /** What the block at `a` adds to the total of the blocks whose used flag is `which`;
      `cut` bytes of every block do not count. */
  function Part(b: Blocks, a: nat, which: bool, cut: nat): (n: int)
    requires a in b.next && a in b.used
  {
    if b.used[a] == which then b.next[a] - a - cut else 0
  }

  ghost function Total(b: Blocks, a: nat, which: bool, cut: nat): (n: int)
    requires Tiled(b) && a in b.next
    decreases b.tail - a
  {
    assert At(b, a);
    if a == b.tail then 0 else Part(b, a, which, cut) + Total(b, b.next[a], which, cut)
  }

  lemma {:induction false} MarkTotal(b: Blocks, h: nat, v: bool, a: nat, which: bool, cut: nat)
    requires Tiled(b) && h in b.next && h != b.tail && a in b.next
    ensures Tiled(Mark(b, h, v))
    ensures Total(Mark(b, h, v), a, which, cut) == Total(b, a, which, cut)
              + if a <= h then Part(Mark(b, h, v), h, which, cut) - Part(b, h, which, cut) else 0
    decreases b.tail - a
  {
    MarkTiled(b, h, v);
    assert At(b, a) && At(b, h) && Apart(b, a, h);
    if a == b.tail {
    } else {
      MarkTotal(b, h, v, b.next[a], which, cut);
    }
  }

  lemma {:induction false} SplitTotal(b: Blocks, h: nat, n: nat, a: nat, which: bool, cut: nat)
    requires Tiled(b) && CanSplit(b, h, n) && a in b.next
    ensures Tiled(Split(b, h, n))
    ensures Total(Split(b, h, n), a, which, cut) == Total(b, a, which, cut)
              + if a <= h then Part(Split(b, h, n), h, which, cut) + Part(Split(b, h, n), n, which, cut)
                               - Part(b, h, which, cut)
                else 0
    decreases b.tail - a
  {
    var r := Split(b, h, n);
    SplitTiled(b, h, n);
    assert At(b, a) && Apart(b, a, h) && Apart(b, h, a) && At(b, h);
    if a == b.tail {
    } else {
      SplitTotal(b, h, n, b.next[a], which, cut);
      if a == h {
        assert Total(r, n, which, cut) == Part(r, n, which, cut) + Total(r, b.next[h], which, cut);
      }
    }
  }

  lemma {:induction false} MergeTotal(b: Blocks, h: nat, a: nat, which: bool, cut: nat)
    requires Tiled(b) && CanMerge(b, h) && a in b.next && a != b.next[h]
    ensures Tiled(Merge(b, h))
    ensures Total(Merge(b, h), a, which, cut) == Total(b, a, which, cut)
              + if a <= h then Part(Merge(b, h), h, which, cut) - Part(b, h, which, cut)
                               - Part(b, b.next[h], which, cut)
                else 0
    decreases b.tail - a
  {
    var r, m := Merge(b, h), b.next[h];
    MergeTiled(b, h);
    assert At(b, a) && Apart(b, a, h) && Apart(b, h, a) && At(b, h) && At(b, m);
    if a == h {
      MergeTotal(b, h, b.next[m], which, cut);
      assert Total(b, h, which, cut) == Part(b, h, which, cut) + Total(b, m, which, cut);
    } else if a != b.tail {
      MergeTotal(b, h, b.next[a], which, cut);
    }
  }

  /** A free block has used neighbours. */
  lemma FreeNeighbours(b: Blocks, a: nat)
    requires Tiled(b) && Coalesced(b) && a in b.next && !b.used[a]
    ensures a != b.tail && b.next[a] in b.used && b.used[b.next[a]]
    ensures a != b.start ==> b.prev[a] in b.used && b.used[b.prev[a]]
  {
    assert At(b, a) && NotBothFree(b, a) && NotBothFree(b, b.prev[a]);
  }

  lemma CarveCoalesced(b: Blocks, a: nat, n: nat)
    requires Tiled(b) && Coalesced(b) && CanSplit(b, a, n) && !b.used[a]
    ensures Coalesced(Mark(Split(b, a, n), a, true))
  {
    var r := Mark(Split(b, a, n), a, true);
    FreeNeighbours(b, a);
    assert At(b, a) && Apart(b, a, n);
    forall c ensures NotBothFree(r, c) {
      assert NotBothFree(b, c) && (c in b.next ==> At(b, c));
    }
  }

  lemma MarkUsedCoalesced(b: Blocks, a: nat)
    requires Tiled(b) && Coalesced(b) && a in b.next
    ensures Coalesced(Mark(b, a, true))
  {
    forall c ensures NotBothFree(Mark(b, a, true), c) {
      assert NotBothFree(b, c);
    }
  }

  lemma MergeCoalesced(b: Blocks, c: nat)
    requires Tiled(b) && CanMerge(b, c) && !b.used[b.next[c]]
    requires forall a {:trigger NotBothFree(b, a)} :: a != c ==> NotBothFree(b, a)
    ensures Coalesced(Merge(b, c))
  {
    assert At(b, c) && At(b, b.next[c]) && NotBothFree(b, b.next[c]);
    forall a ensures NotBothFree(Merge(b, c), a) {
      assert a != c ==> NotBothFree(b, a);
      assert a in b.next ==> At(b, a);
    }
  }
}

/** How a request is rounded, in 32 bits. */
module Requests {
  import opened Numbers

  const MIN: nat := 12

  /** `RT_ALIGN(size, 4)`. */
  function Align(request: nat): (size: nat)
    ensures size % 4 == 0
  {
    (request + 3) % WORD / 4 * 4
  }

  /** The request as the allocators serve it: rounded up, and not below the minimum. */
  function Round(request: nat): (size: nat)
    ensures size % 4 == 0 && size >= MIN
  {
    var r := Align(request);
    if r < MIN then MIN else r
  }

  lemma AlignSame(size: nat)
    requires size % 4 == 0 && size < WORD
    ensures Align(size) == size
  {
    assert size <= WORD - 4;
    assert (size + 3) % WORD == size + 3;
  }

  /** Rounding covers the request with the least multiple of 4, except for the three requests that wrap around. */
  lemma RoundCovers(request: nat)
    requires request < WORD
    ensures request <= Align(request) <==> request <= WORD - 4
    ensures request <= Round(request) <==> request <= WORD - 4
    ensures request <= WORD - 4 ==> Align(request) < request + 4 && Round(request) < Max(MIN + 1, request + 4)
  {
  }

  /** Those three are rounded to nothing, like a request for nothing, and then to the minimum. */
  lemma RoundWraps(request: nat)
    requires request < WORD
    ensures Align(request) == 0 <==> request == 0 || request > WORD - 4
    ensures request > WORD - 4 ==> Round(request) == MIN
  {
  }

  /** Whatever the size of a block, a resize to the rounded request keeps as much of it as one to the
      request itself, if and only if the request is not one of the three. */
  lemma RoundKeepsIff(request: nat)
    requires request < WORD
    ensures (forall size {:trigger Min(size, request)} :: Min(size, request) <= Min(size, Align(request))) <==>
            request <= WORD - 4
    ensures (forall size {:trigger Min(size, request)} :: Min(size, request) <= Min(size, Round(request))) <==>
            request <= WORD - 4
  {
    RoundCovers(request);
    assert Min(request, request) == request;
  }
}

/** The payloads of the blocks handed out, and what header writes and copies leave of them. */
module Payloads {
  import opened Blocks
  import opened Numbers
  import opened Requests

  function Highest(s: seq<int>): (m: int)
    requires s != []
    ensures forall x :: x in s ==> x <= m
    ensures m in s
  {
    if |s| == 1 then s[0]
    else
      assert s == [s[0]] + s[1..];
      Max(s[0], Highest(s[1..]))
  }

  /** The blocks handed out: header address to end address. */
  ghost function Allocated(b: Blocks): (m: map<nat, nat>)
    requires Tiled(b)
  {
    map a | a in b.used && b.used[a] && a != b.tail :: b.next[a]
  }

  lemma {:induction false} SameFrom(b: Blocks, c: Blocks, a: nat, x: nat)
    requires Tiled(b) && Coalesced(b) && Tiled(c) && Coalesced(c)
    requires b.start == c.start && b.tail == c.tail && b.hdr == c.hdr && Allocated(b) == Allocated(c)
    requires a in b.next && a in c.next && x in b.next && a <= x
    ensures x in c.next && b.used[x] == c.used[x] && (x != b.tail ==> b.next[x] == c.next[x])
    decreases b.tail - a
  {
    assert At(b, a) && At(c, a) && At(b, x) && Apart(b, a, x);
    if a == b.tail {
    } else {
      assert b.used[a] == (a in Allocated(b)) == (a in Allocated(c)) == c.used[a];
      if !b.used[a] {
        var m, n := b.next[a], c.next[a];
        assert NotBothFree(b, a) && NotBothFree(c, a) && At(b, m) && At(c, n);
        assert m == b.tail || m in Allocated(b);
        assert n == b.tail || n in Allocated(b);
        assert Apart(b, a, n) && Apart(c, a, m);
      } else {
        assert b.next[a] == Allocated(b)[a] == Allocated(c)[a] == c.next[a];
      }
      assert b.next[a] == c.next[a];
      if a != x {
        SameFrom(b, c, b.next[a], x);
      }
    }
  }

  /** The block structure is a canonical form of what is handed out: over the same pool the same live
      blocks mean the same headers, links and flags. */
  lemma SameBlocks(b: Blocks, c: Blocks)
    requires Tiled(b) && Coalesced(b) && Tiled(c) && Coalesced(c)
    requires b.start == c.start && b.tail == c.tail && b.hdr == c.hdr && Allocated(b) == Allocated(c)
    requires b.next[b.tail] == c.next[b.tail] && b.prev[b.start] == c.prev[b.start]
    ensures b == c
  {
    forall x | x in b.next ensures x in c.next && b.used[x] == c.used[x] && b.next[x] == c.next[x] {
      assert At(b, x);
      SameFrom(b, c, b.start, x);
    }
    forall x | x in c.next ensures x in b.next {
      assert At(c, x);
      SameFrom(c, b, b.start, x);
    }
    forall x | x in b.prev ensures b.prev[x] == c.prev[x] {
      assert At(b, x) && At(c, x);
      if x != b.start {
        assert b.next[b.prev[x]] == c.next[b.prev[x]] == x && At(c, b.prev[x]);
      }
    }
    assert b.next == c.next && b.prev == c.prev && b.used == c.used;
  }

  lemma MarkAllocated(b: Blocks, a: nat)
    requires Tiled(b) && a in b.next && a != b.tail
    ensures Tiled(Mark(b, a, true)) && Tiled(Mark(b, a, false))
    ensures Allocated(Mark(b, a, true)) == Allocated(b)[a := b.next[a]]
    ensures Allocated(Mark(b, a, false)) == Allocated(b) - {a}
  {
    MarkTiled(b, a, true);
    MarkTiled(b, a, false);
  }

  lemma SplitKeeps(b: Blocks, a: nat, n: nat)
    requires Tiled(b) && CanSplit(b, a, n) && !b.used[a]
    ensures Tiled(Split(b, a, n)) && Allocated(Split(b, a, n)) == Allocated(b)
  {
    SplitTiled(b, a, n);
  }

  lemma SplitCuts(b: Blocks, a: nat, n: nat)
    requires Tiled(b) && CanSplit(b, a, n) && b.used[a]
    ensures Tiled(Split(b, a, n)) && Allocated(Split(b, a, n)) == Allocated(b)[a := n]
  {
    SplitTiled(b, a, n);
  }

  lemma MergeAllocated(b: Blocks, a: nat)
    requires Tiled(b) && CanMerge(b, a) && !b.used[b.next[a]]
    ensures Tiled(Merge(b, a))
    ensures b.used[a] ==> Allocated(Merge(b, a)) == Allocated(b)[a := b.next[b.next[a]]]
    ensures !b.used[a] ==> Allocated(Merge(b, a)) == Allocated(b)
  {
    assert At(b, a);
    MergeTiled(b, a);
  }

  predicate InHeader(hdr: nat, w: set<nat>, i: nat) {
    exists a :: a in w && a <= i < a + hdr
  }

  /** No header overlaps the payload of a live block. */
  lemma PayloadClear(b: Blocks, x: nat, i: nat)
    requires Tiled(b) && x in Allocated(b) && x + b.hdr <= i < Allocated(b)[x]
    ensures !InHeader(b.hdr, b.next.Keys, i)
  {
    forall c | c in b.next ensures !(c <= i < c + b.hdr) {
      assert At(b, c) && At(b, x) && Apart(b, c, x) && Apart(b, x, c);
    }
  }

  /** Every byte that belongs to a live block before and after keeps its value. */
  ghost predicate Preserved(hdr: nat, m: map<nat, int>, n: map<nat, int>, before: map<nat, nat>, after: map<nat, nat>) {
    && n.Keys == m.Keys
    && forall x, i :: x in before && x in after && x + hdr <= i < before[x] && i < after[x] && i in m ==> n[i] == m[i]
  }

  lemma PreservedAt(hdr: nat, m: map<nat, int>, n: map<nat, int>, before: map<nat, nat>, after: map<nat, nat>,
                    x: nat, i: nat)
    requires Preserved(hdr, m, n, before, after) && x in before && x in after
    requires x + hdr <= i < before[x] && i < after[x] && i in m
    ensures i in n && n[i] == m[i]
  {
    assert i in n;
  }

  lemma HeadersOnly(m: map<nat, int>, n: map<nat, int>, b: Blocks, c: Blocks)
    requires Tiled(b) && Tiled(c) && b.hdr == c.hdr && n.Keys == m.Keys
    requires forall i :: i in m && !InHeader(b.hdr, b.next.Keys, i) && !InHeader(b.hdr, c.next.Keys, i) ==> n[i] == m[i]
    ensures Preserved(b.hdr, m, n, Allocated(b), Allocated(c))
  {
    forall x, i | x in Allocated(b) && x in Allocated(c) && x + b.hdr <= i < Allocated(b)[x] && i < Allocated(c)[x]
        && i in m
      ensures n[i] == m[i] {
      PayloadClear(b, x, i);
      PayloadClear(c, x, i);
    }
  }

  /** A resize in place keeps the common part of the payload and every other block. */
  lemma InPlace(hdr: nat, m: map<nat, int>, n: map<nat, int>, before: map<nat, nat>, after: map<nat, nat>, a: nat,
                size: nat)
    requires Preserved(hdr, m, n, before, after) && a in before && a in after && after == before[a := after[a]]
    requires a + hdr + size <= before[a] && a + hdr + size <= after[a]
    requires forall i :: a + hdr <= i < a + hdr + size ==> i in m
    ensures Carried(m, n, a + hdr, a + hdr, size) && OthersKept(hdr, m, n, before, a)
    ensures after - {a} == before - {a}
  {
  }

  /** The first `size` bytes at `from` before are the first `size` bytes at `to` after. */
  ghost predicate Carried(m: map<nat, int>, n: map<nat, int>, from: nat, to: nat, size: int) {
    forall i :: to <= i < to + size ==> i in n && (i - to) + from in m && n[i] == m[(i - to) + from]
  }

  /** The payload of every other block handed out is untouched. */
  ghost predicate OthersKept(hdr: nat, m: map<nat, int>, n: map<nat, int>, blocks: map<nat, nat>, a: nat) {
    n.Keys == m.Keys && forall x, i :: x in blocks && x != a && x + hdr <= i < blocks[x] && i in m ==> n[i] == m[i]
  }

  lemma PayloadsApart(b: Blocks, x: nat, y: nat)
    requires Tiled(b) && x in Allocated(b) && y in Allocated(b) && x != y
    ensures Allocated(b)[x] <= y || Allocated(b)[y] <= x
    ensures b.start <= x && x + b.hdr <= Allocated(b)[x] <= b.tail
  {
    assert At(b, x) && At(b, y) && Apart(b, x, y) && Apart(b, y, x) && At(b, b.next[x]);
  }

  /** No other block reaches into the block at `q`. */
  ghost predicate ClearOf(blocks: map<nat, nat>, q: nat) {
    q in blocks && forall x :: x in blocks && x != q ==> blocks[x] <= q || blocks[q] <= x
  }

  lemma AllClear(b: Blocks, q: nat)
    requires Tiled(b) && q in Allocated(b)
    ensures ClearOf(Allocated(b), q)
  {
    forall x | x in Allocated(b) && x != q ensures Allocated(b)[x] <= q || Allocated(b)[q] <= x {
      PayloadsApart(b, x, q);
    }
  }

  lemma CarriedKeys(m: map<nat, int>, n: map<nat, int>, from: nat, to: nat, size: nat)
    requires Carried(m, n, from, to, size)
    ensures forall i :: to <= i < to + size ==> i in n
    ensures forall j :: from <= j < from + size ==> j in m
  {
    forall j | from <= j < from + size ensures j in m {
      var i := (j - from) + to;
      assert i in n && (i - to) + from == j;
    }
  }

  lemma CarriedLess(m: map<nat, int>, m': map<nat, int>, from: nat, to: nat, n: int, n': int)
    requires Carried(m, m', from, to, n) && n' <= n
    ensures Carried(m, m', from, to, n')
  {
  }

  /** What was carried over is still there. */
  lemma CarriedOn(m: map<nat, int>, m1: map<nat, int>, m2: map<nat, int>, from: nat, to: nat, size: nat)
    requires Carried(m, m1, from, to, size)
    requires forall i :: to <= i < to + size ==> i in m1 && i in m2 && m2[i] == m1[i]
    ensures Carried(m, m2, from, to, size)
  {
  }

  /** What was carried over had been there before. */
  lemma CarriedFrom(m: map<nat, int>, m1: map<nat, int>, m2: map<nat, int>, from: nat, to: nat, size: nat)
    requires Carried(m1, m2, from, to, size)
    requires forall j :: from <= j < from + size ==> j in m && j in m1 && m1[j] == m[j]
    ensures Carried(m, m2, from, to, size)
  {
    forall i | to <= i < to + size ensures i in m2 && (i - to) + from in m && m2[i] == m[(i - to) + from] {
      var j := (i - to) + from;
      assert from <= j < from + size;
    }
  }

  lemma TransferKeeps(hdr: nat, m: map<nat, int>, m1: map<nat, int>, m2: map<nat, int>, blocks: map<nat, nat>, p: nat,
                      q: nat, n: nat)
    requires p in blocks && q in blocks && p != q && p + hdr + n <= blocks[p] && q + hdr + n <= blocks[q]
             && ClearOf(blocks, q)
    requires m1.Keys == m.Keys && Carried(m, m1, p + hdr, q + hdr, n)
    requires forall i :: i in m && !(q + hdr <= i < q + hdr + n) ==> m1[i] == m[i]
    requires Preserved(hdr, m1, m2, blocks, blocks - {p})
    ensures Carried(m, m2, p + hdr, q + hdr, n) && OthersKept(hdr, m, m2, blocks - {q}, p)
  {
    CarriedKeys(m, m1, p + hdr, q + hdr, n);
    assert m2.Keys == m1.Keys;
    hide Carried, Preserved;
    forall i | q + hdr <= i < q + hdr + n ensures i in m2 && m2[i] == m1[i] {
      PreservedAt(hdr, m1, m2, blocks, blocks - {p}, q, i);
    }
    CarriedOn(m, m1, m2, p + hdr, q + hdr, n);
    forall x, i | x in blocks && x != q && x != p && x + hdr <= i < blocks[x] && i in m ensures m2[i] == m[i] {
      PreservedAt(hdr, m1, m2, blocks, blocks - {p}, x, i);
    }
  }

  lemma MoveKeeps(hdr: nat, m: map<nat, int>, m1: map<nat, int>, m2: map<nat, int>, before: map<nat, nat>,
                  mid: map<nat, nat>, p: nat, q: nat, n: nat)
    requires p in before && p + hdr + n <= before[p] && q !in before && q in mid && mid == before[q := mid[q]]
    requires Preserved(hdr, m, m1, before, mid)
    requires Carried(m1, m2, p + hdr, q + hdr, n) && OthersKept(hdr, m1, m2, mid - {q}, p)
    ensures Carried(m, m2, p + hdr, q + hdr, n) && OthersKept(hdr, m, m2, before, p)
  {
    CarriedKeys(m1, m2, p + hdr, q + hdr, n);
    assert m1.Keys == m.Keys;
    hide Carried, Preserved, OthersKept;
    assert p in mid && mid[p] == before[p];
    forall j | p + hdr <= j < p + hdr + n ensures j in m && j in m1 && m1[j] == m[j] {
      PreservedAt(hdr, m, m1, before, mid, p, j);
    }
    CarriedFrom(m, m1, m2, p + hdr, q + hdr, n);
    MoveOthers(hdr, m, m1, m2, before, mid, p, q);
  }

  lemma MoveOthers(hdr: nat, m: map<nat, int>, m1: map<nat, int>, m2: map<nat, int>, before: map<nat, nat>,
                   mid: map<nat, nat>, p: nat, q: nat)
    requires p in before && q !in before && q in mid && mid == before[q := mid[q]]
    requires Preserved(hdr, m, m1, before, mid) && OthersKept(hdr, m1, m2, mid - {q}, p)
    ensures OthersKept(hdr, m, m2, before, p)
  {
    assert m1.Keys == m.Keys;
    hide Preserved;
    forall x, i | x in before && x != p && x + hdr <= i < before[x] && i in m ensures m2[i] == m[i] {
      assert x in mid && mid[x] == before[x];
      PreservedAt(hdr, m, m1, before, mid, x, i);
      assert x in mid - {q} && (mid - {q})[x] == before[x];
    }
  }

  lemma PreservedSame(hdr: nat, m: map<nat, int>, x: map<nat, nat>, y: map<nat, nat>)
    ensures Preserved(hdr, m, m, x, y)
  {
  }

  /** The payload at `p` is now at `q`, as far as both blocks go; everything else is as it was. */
  ghost predicate Resized(b: Blocks, m: map<nat, int>, p: nat, c: Blocks, n: map<nat, int>, q: nat, size: nat)
    requires Tiled(b) && Tiled(c) && p >= b.hdr == c.hdr && p - b.hdr in b.next
  {
    && q >= b.hdr && q - b.hdr in Allocated(c) && Allocated(c)[q - b.hdr] >= q + size
    && Allocated(c) - {q - b.hdr} == Allocated(b) - {p - b.hdr}
    && Carried(m, n, p, q, Min(Size(b, p - b.hdr), size))
    && OthersKept(b.hdr, m, n, Allocated(b), p - b.hdr)
  }

  /** The block at `ptr` is new: it was free, and it ends after `size` bytes if another block fits behind, else
      where it did. */
  ghost predicate Placed(b: Blocks, c: Blocks, ptr: nat, size: nat)
    requires Tiled(b) && Tiled(c)
  {
    && ptr >= b.hdr && ptr - b.hdr in b.next && ptr - b.hdr !in Allocated(b) && ptr - b.hdr in Allocated(c)
    && b.next[ptr - b.hdr] >= ptr + size
    && Allocated(c)[ptr - b.hdr] == if b.next[ptr - b.hdr] >= ptr + size + b.hdr + MIN then ptr + size
                                    else b.next[ptr - b.hdr]
  }

  /** The block at `ptr` is new, and nothing else has changed hands. */
  ghost predicate HandedOut(b: Blocks, c: Blocks, ptr: nat, size: nat)
    requires Tiled(b) && Tiled(c)
  {
    && Placed(b, c, ptr, size)
    && Allocated(c) == Allocated(b)[ptr - b.hdr := Allocated(c)[ptr - b.hdr]]
  }

  lemma ResizedLess(b: Blocks, m: map<nat, int>, p: nat, c: Blocks, n: map<nat, int>, q: nat, size: nat, less: nat)
    requires Tiled(b) && Tiled(c) && p >= b.hdr == c.hdr && p - b.hdr in b.next
    requires Resized(b, m, p, c, n, q, size) && less <= size
    ensures Resized(b, m, p, c, n, q, less) && q - b.hdr in Allocated(c) && Allocated(c)[q - b.hdr] >= q + size
  {
    var was := Size(b, p - b.hdr);
    CarriedLess(m, n, p, q, Min(was, size), Min(was, less));
    hide Carried, OthersKept, Allocated, Tiled;
  }

  /** A new block, a copy into it and freeing the old one make a resize. */
  lemma MoveResizes(b: Blocks, m: map<nat, int>, d: Blocks, m1: map<nat, int>, c: Blocks, m2: map<nat, int>,
                    p: nat, q: nat, size: nat)
    requires Tiled(b) && Tiled(d) && Tiled(c) && b.hdr == d.hdr == c.hdr
    requires p in Allocated(b) && q !in Allocated(b) && q in Allocated(d) && Allocated(d)[q] >= q + b.hdr + size
    requires Allocated(d) == Allocated(b)[q := Allocated(d)[q]] && Allocated(c) == Allocated(d) - {p}
    requires Preserved(b.hdr, m, m1, Allocated(b), Allocated(d)) && p + b.hdr <= Allocated(b)[p]
    requires Carried(m1, m2, p + b.hdr, q + b.hdr, Min(Size(b, p), size))
    requires OthersKept(b.hdr, m1, m2, Allocated(d) - {q}, p)
    ensures Resized(b, m, p + b.hdr, c, m2, q + b.hdr, size)
  {
    hide Carried, OthersKept, Preserved, Tiled, Allocated;
    AllocatedEnd(b, p);
    var n := Min(Size(b, p), size);
    MoveKeeps(b.hdr, m, m1, m2, Allocated(b), Allocated(d), p, q, n);
    MoveMaps(Allocated(b), Allocated(d), p, q);
  }

  lemma AllocatedEnd(b: Blocks, p: nat)
    requires Tiled(b) && p in Allocated(b)
    ensures p in b.next && b.next[p] == Allocated(b)[p]
  {
  }

  lemma MoveMaps(x: map<nat, nat>, y: map<nat, nat>, p: nat, q: nat)
    requires p in x && q !in x && q in y && y == x[q := y[q]]
    ensures q in y - {p} && (y - {p})[q] == y[q] && y - {p} - {q} == x - {p}
  {
  }

  /** `rt_memcpy` between regions that do not overlap. */
  method CopyBytes(mem: map<nat, int>, dst: nat, src: nat, n: nat) returns (r: map<nat, int>)
    requires forall i :: dst <= i < dst + n ==> i in mem
    requires forall i :: src <= i < src + n ==> i in mem
    requires dst + n <= src || src + n <= dst
    ensures r.Keys == mem.Keys && Carried(mem, r, src, dst, n)
    ensures forall i :: i in mem && !(dst <= i < dst + n) ==> r[i] == mem[i]
  {
    r := mem;
    var k := 0;
    while k < n
      invariant 0 <= k <= n && r.Keys == mem.Keys
      invariant Carried(mem, r, src, dst, k)
      invariant forall i :: i in mem && !(dst <= i < dst + k) ==> r[i] == mem[i]
    {
      r := r[dst + k := r[src + k]];
      k := k + 1;
    }
  }

  /** Header writes may have changed any byte of any header, old or new. */
  method WriteHeaders(hdr: nat, mem: map<nat, int>, was: set<nat>, now: set<nat>) returns (r: map<nat, int>)
    ensures r.Keys == mem.Keys
    ensures forall i :: i in mem && !InHeader(hdr, was, i) && !InHeader(hdr, now, i) ==> r[i] == mem[i]
  {
    var junk: nat -> int := *;
    r := map i | i in mem :: if InHeader(hdr, was, i) || InHeader(hdr, now, i) then junk(i) else mem[i];
  }
}
