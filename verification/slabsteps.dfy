/** What each step of src/slab.c does to the zones, the lists of zones and the free pages. */
module SlabSteps {
  import opened Lists
  import opened Numbers
  import opened PageRuns
  import opened SlabState
  import opened ZoneChunks
  import opened ZoneClasses

  /** `n` pages from `a` on were free, the lowest that many, and exactly these are no longer free. */
  ghost predicate Grabbed(runs: seq<Run>, runs': seq<Run>, a: nat, n: nat) {
    && AllFree(runs, a, n)
    && (forall b: nat :: AllFree(runs, b, n) ==> a <= b)
    && forall p: nat :: Has(runs', p) <==> Has(runs, p) && !(a <= p < a + n)
  }

  /** `n` pages from `a` on become free. */
  ghost predicate Returned(runs: seq<Run>, runs': seq<Run>, a: nat, n: nat) {
    forall p: nat :: Has(runs', p) <==> Has(runs, p) || a <= p < a + n
  }

  /** Every chunk of the zone is handed out. */
  ghost predicate Full(y: Zone, busy: set<nat>) {
    forall i: nat :: i < y.nmax ==> i in busy
  }

  lemma FullIff(page: nat, zs: nat, y: Zone, busy: set<nat>, idx: seq<nat>)
    requires ZoneOk(page, zs, y, busy, idx)
    ensures y.nfree == 0 <==> Full(y, busy)
  {
    if Full(y, busy) {
      assert y.uindex + 1 < y.nmax ==> y.uindex + 1 in busy;
      NoElements(idx);
    }
  }

  lemma NoElements(s: seq<nat>)
    ensures (forall x: nat :: x !in s) ==> s == []
  {
    assert s != [] ==> s[0] in s;
  }

  /** A run of pages is handed out as a large block. */
  ghost predicate TookLarge(s: State, g: Book, s': State, g': Book, p: nat, n: nat) {
    && s'.zones == s.zones && s'.arrays == s.arrays && s'.spare == s.spare && Grabbed(s.runs, s'.runs, p, n)
    && g' == g.(held := g.held[p := n], larges := g.larges + {p})
  }

  /** A large block is given back: its pages become free. */
  ghost predicate GaveLarge(s: State, g: Book, s': State, g': Book, p: nat) {
    && s'.zones == s.zones && s'.arrays == s.arrays && s'.spare == s.spare
    && p in g.held && Returned(s.runs, s'.runs, p, g.held[p])
    && g' == g.(held := g.held - {p}, larges := g.larges - {p})
  }

  /** The zone at `z` keeps its place, its class and its size; no other zone changes. */
  ghost predicate OnlyZone(s: State, s': State, z: nat) {
    && z in s.zones && z in s'.zones && s'.zones == s.zones[z := s'.zones[z]]
    && s'.zones[z].zi == s.zones[z].zi && s'.zones[z].size == s.zones[z].size
    && s'.zones[z].base == s.zones[z].base && s'.zones[z].nmax == s.zones[z].nmax
  }

  /** A chunk of the first zone of a list is handed out; the zone leaves the list if that was its last. */
  ghost predicate TookChunk(s: State, g: Book, s': State, g': Book, z: nat, i: nat) {
    && s'.spare == s.spare && s'.usage == s.usage && s'.runs == s.runs
    && g'.held == g.held && g'.larges == g.larges
    && OnlyZone(s, s', z) && z in g.busy && i !in g.busy[z] && g'.busy == g.busy[z := g.busy[z] + {i}]
    && s'.zones[z] == TakeZone(s.zones[z]) && Slot(s.zones[z], i) == TakeSlot(s.zones[z])
    && var zi := s.zones[z].zi;
       && zi in s.arrays && s.arrays[zi] != [] && s.arrays[zi][0] == z
       && s'.arrays == s.arrays[zi := if Full(s.zones[z], g'.busy[z]) then s.arrays[zi][1..] else s.arrays[zi]]
  }

  /** A whole zone is taken: the one kept last, or new pages where none is kept. */
  ghost predicate Obtained(s: State, g: Book, s': State, g': Book, z: nat, zp: nat) {
    && s'.zones == s.zones && s'.arrays == s.arrays
    && if s.spare != [] then
         z == s.spare[0] && s'.spare == s.spare[1..] && s'.usage == s.usage && s'.runs == s.runs && g' == g
       else
         s'.spare == [] && Grabbed(s.runs, s'.runs, z, zp) && g' == g.(held := g.held[z := zp])
  }

  /** The first chunk of a new zone of a class is handed out. */
  ghost predicate TookZone(s: State, g: Book, s': State, g': Book, z: nat, zi: nat, zp: nat) {
    && z !in s.zones && z in s'.zones && s'.zones == s.zones[z := s'.zones[z]]
    && s'.zones[z].zi == zi && s'.zones[z].uindex == 0 && s'.zones[z].chunks == []
    && zi in s.arrays && s.arrays[zi] == [] && s'.arrays == s.arrays[zi := [z]]
    && g'.busy == g.busy[z := {0}] && g'.larges == g.larges
    && Obtained(s, g, s'.(zones := s.zones, arrays := s.arrays), g'.(busy := g.busy, idx := g.idx), z, zp)
  }

  /** The zone at `z` is wholly free without slot `i`, and its class has another zone with free chunks. */
  ghost predicate Retires(s: State, g: Book, z: nat, i: nat) {
    && z in s.zones && z in g.busy && s.zones[z].zi in s.arrays
    && g.busy[z] == {i} && exists x :: x in s.arrays[s.zones[z].zi] && x != z
  }

  /** A zone that retires is kept if fewer than two are, and otherwise its pages become free. */
  ghost predicate Retired(s: State, g: Book, s': State, g': Book, z: nat, zp: nat) {
    && z in s.zones && s.zones[z].zi in s.arrays
    && s'.zones == s.zones - {z} && g'.busy == g.busy - {z} && g'.larges == g.larges
    && s'.arrays == s.arrays[s.zones[z].zi := Without(s.arrays[s.zones[z].zi], z)]
    && if |s.spare| < 2 then
         s'.spare == [z] + s.spare && s'.runs == s.runs && g'.held == g.held
       else
         s'.spare == s.spare && Returned(s.runs, s'.runs, z, zp) && g'.held == g.held - {z}
  }

  /** A chunk is given back to a zone that stays, first in its list if it was not linked. */
  ghost predicate Stayed(s: State, g: Book, s': State, g': Book, z: nat, i: nat) {
    && OnlyZone(s, s', z) && s.zones[z].zi in s.arrays && z in g.busy
    && s'.zones[z] == GiveBack(s.zones[z], Slot(s.zones[z], i))
    && s'.spare == s.spare && s'.usage == s.usage && s'.runs == s.runs
    && g'.held == g.held && g'.larges == g.larges && g'.busy == g.busy[z := g.busy[z] - {i}]
    && var list := s.arrays[s.zones[z].zi];
       s'.arrays == s.arrays[s.zones[z].zi := if z in list then list else [z] + list]
  }

  ghost predicate GaveChunk(s: State, g: Book, s': State, g': Book, z: nat, i: nat, zp: nat) {
    if Retires(s, g, z, i) then Retired(s, g, s', g', z, zp) else Stayed(s, g, s', g', z, i)
  }

  /** What rt_free does. */
  ghost predicate Gave(s: State, g: Book, s': State, g': Book, l: Place, zp: nat) {
    match l
    case Chunk(z, i) => GaveChunk(s, g, s', g', z, i, zp)
    case Pages(p) => GaveLarge(s, g, s', g', p)
  }

  /** Pages for a large request, rounded up in 32 bits. */
  function LargePages(size: nat): (n: nat) {
    (size + PAGE - 1) % WORD / PAGE
  }

  /** The least number of pages that covers the request, except for the requests that wrap around. */
  lemma LargeCovers(size: nat)
    requires size < WORD
    ensures LargePages(size) == 0 <==> size == 0 || size > WORD - PAGE
    ensures LargePages(size) > 0 ==> (LargePages(size) - 1) * PAGE < size <= LargePages(size) * PAGE
  {
  }

  /** There are not that many consecutive free pages. */
  ghost predicate NoRoom(runs: seq<Run>, n: nat) {
    forall a: nat :: !AllFree(runs, a, n)
  }

  /** Every zone of the class is full. */
  ghost predicate NoChunk(s: State, g: Book, zi: int) {
    forall z: nat :: z in s.zones && z in g.busy && s.zones[z].zi == zi ==> Full(s.zones[z], g.busy[z])
  }

  lemma NoChunkIff(s: State, g: Book, zs: nat, zi: nat)
    requires Inv(s, g, zs) && zi < NZONES
    ensures s.arrays[zi] == [] <==> NoChunk(s, g, zi)
  {
    hide Full;
    NoElements(s.arrays[zi]);
    forall z: nat
      ensures z in s.zones && s.zones[z].zi == zi ==> (z in s.arrays[zi] <==> !Full(s.zones[z], g.busy[z])) {
      assert LinkedAt(s, z, zi) && ZoneAt(s, g, zs, z);
      if z in s.zones {
        FullIff(z, zs, s.zones[z], g.busy[z], g.idx[z]);
        AllFreeIff(z, zs, s.zones[z], g.busy[z], g.idx[z]);
      }
    }
    hide ZoneOk;
    forall z: nat | z in s.arrays[zi] ensures z in s.zones && s.zones[z].zi == zi {
      assert LinkedAt(s, z, zi);
    }
  }

  /** When rt_malloc fails. */
  ghost predicate MallocFails(s: State, g: Book, zs: nat, size: nat) {
    || size == 0
    || if size >= Limit(zs) then LargePages(size) == 0 || NoRoom(s.runs, LargePages(size))
       else NoChunk(s, g, ZoneIndex(size).0) && s.spare == [] && NoRoom(s.runs, zs / PAGE)
  }

  /** What rt_malloc does when it does not fail. */
  ghost predicate Served(s: State, g: Book, s': State, g': Book, zs: nat, size: nat, l: Place) {
    if size >= Limit(zs) then
      l.Pages? && TookLarge(s, g, s', g', l.p, LargePages(size))
    else
      && l.Chunk? && l.z in s'.zones && ZoneIndex(size) == (s'.zones[l.z].zi, s'.zones[l.z].size)
      && if NoChunk(s, g, s'.zones[l.z].zi) then l.i == 0 && TookZone(s, g, s', g', l.z, s'.zones[l.z].zi, zs / PAGE)
         else TookChunk(s, g, s', g', l.z, l.i)
  }

  /** Every run of pages that is held is the page map, a zone in use or kept, or a large block. */
  ghost predicate Owned(s: State, g: Book, lo: nat) {
    && lo in g.held && !IsZone(s, lo) && lo !in g.larges
    && forall p: nat :: p in g.held ==> p == lo || IsZone(s, p) || p in g.larges
  }

  ghost predicate Covered(held: map<nat, nat>, p: nat) {
    exists q: nat :: q in held && q <= p < q + held[q]
  }

  /** No page is lost: every one is free or held. */
  ghost predicate Filled(held: map<nat, nat>, runs: seq<Run>, lo: nat, hi: nat) {
    forall p: nat :: lo <= p < hi ==> Has(runs, p) || Covered(held, p)
  }

  /** A list has at most one zone that is wholly free, at its end. */
  ghost predicate WholeAt(s: State, g: Book, zi: nat) {
    zi in s.arrays ==>
      forall z: nat :: z in s.arrays[zi] && z in g.busy && g.busy[z] == {} ==>
                         s.arrays[zi] != [] && z == s.arrays[zi][|s.arrays[zi]| - 1]
  }

  ghost predicate WholeLast(s: State, g: Book) {
    forall zi: nat {:trigger WholeAt(s, g, zi)} :: WholeAt(s, g, zi)
  }

  ghost predicate Balanced(s: State, g: Book, lo: nat, hi: nat) {
    Owned(s, g, lo) && Filled(g.held, s.runs, lo, hi) && WholeLast(s, g)
  }

  lemma GrabFills(held: map<nat, nat>, runs: seq<Run>, runs': seq<Run>, lo: nat, hi: nat, a: nat, n: nat)
    requires Filled(held, runs, lo, hi) && Grabbed(runs, runs', a, n) && a !in held
    ensures Filled(held[a := n], runs', lo, hi)
  {
    forall p: nat | lo <= p < hi ensures Has(runs', p) || Covered(held[a := n], p) {
      if a <= p < a + n {
        assert a in held[a := n];
      } else if Covered(held, p) {
        var q: nat :| q in held && q <= p < q + held[q];
        assert q in held[a := n];
      }
    }
  }

  lemma ReturnFills(held: map<nat, nat>, runs: seq<Run>, runs': seq<Run>, lo: nat, hi: nat, a: nat)
    requires Filled(held, runs, lo, hi) && a in held && Returned(runs, runs', a, held[a])
    ensures Filled(held - {a}, runs', lo, hi)
  {
    forall p: nat | lo <= p < hi ensures Has(runs', p) || Covered(held - {a}, p) {
      if Covered(held, p) {
        var q: nat :| q in held && q <= p < q + held[q];
        assert q != a ==> q in held - {a};
      }
    }
  }

  lemma {:induction false} LastWithout(s: seq<nat>, z: nat)
    requires s != [] && s[|s| - 1] != z
    ensures Without(s, z) != [] && Without(s, z)[|Without(s, z)| - 1] == s[|s| - 1]
  {
    if |s| == 1 {
    } else {
      LastWithout(s[1..], z);
    }
  }

  lemma TookLargeBalanced(s: State, g: Book, s': State, g': Book, zs: nat, lo: nat, hi: nat, p: nat, n: nat)
    requires Inv(s, g, zs) && Balanced(s, g, lo, hi) && TookLarge(s, g, s', g', p, n) && n > 0
    ensures Balanced(s', g', lo, hi)
  {
    HeldElsewhere(s, g, zs, p, n);
    GrabFills(g.held, s.runs, s'.runs, lo, hi, p, n);
    hide Inv, Grabbed, Filled;
    forall x: nat ensures IsZone(s', x) <==> IsZone(s, x) {
    }
    forall zi: nat ensures WholeAt(s', g', zi) {
      assert WholeAt(s, g, zi);
    }
  }

  lemma GaveLargeBalanced(s: State, g: Book, s': State, g': Book, lo: nat, hi: nat, p: nat)
    requires Balanced(s, g, lo, hi) && GaveLarge(s, g, s', g', p) && p in g.larges
    ensures Balanced(s', g', lo, hi)
  {
    ReturnFills(g.held, s.runs, s'.runs, lo, hi, p);
    hide Returned, Filled;
    forall x: nat ensures IsZone(s', x) <==> IsZone(s, x) {
    }
    forall zi: nat ensures WholeAt(s', g', zi) {
      assert WholeAt(s, g, zi);
    }
  }

  lemma TookChunkBalanced(s: State, g: Book, s': State, g': Book, lo: nat, hi: nat, z: nat, i: nat)
    requires Balanced(s, g, lo, hi) && TookChunk(s, g, s', g', z, i)
    ensures Balanced(s', g', lo, hi)
  {
    hide Filled, Full;
    forall x: nat ensures IsZone(s', x) <==> IsZone(s, x) {
      assert x in s'.zones.Keys <==> x in s.zones.Keys;
    }
    forall zi: nat ensures WholeAt(s', g', zi) {
      assert WholeAt(s, g, zi);
      assert i in g'.busy[z];
    }
  }

  lemma TookZoneBalanced(s: State, g: Book, s': State, g': Book, zs: nat, lo: nat, hi: nat, z: nat, zi: nat)
    requires Inv(s, g, zs) && Balanced(s, g, lo, hi) && TookZone(s, g, s', g', z, zi, zs / PAGE) && zs / PAGE > 0
    ensures Balanced(s', g', lo, hi)
  {
    forall x: nat ensures IsZone(s', x) <==> IsZone(s, x) || x == z {
      assert x in s'.zones.Keys <==> x in s.zones.Keys || x == z;
      assert s.spare != [] ==> s.spare == [z] + s.spare[1..];
    }
    if s.spare == [] {
      HeldElsewhere(s, g, zs, z, zs / PAGE);
      GrabFills(g.held, s.runs, s'.runs, lo, hi, z, zs / PAGE);
    } else {
      assert IsZone(s, z);
    }
    hide Grabbed, Filled;
    forall c: nat ensures WholeAt(s', g', c) {
      assert WholeAt(s, g, c);
      assert c in s.arrays && z in s.arrays[c] ==> LinkedAt(s, z, c);
    }
  }

  lemma StayedBalanced(s: State, g: Book, s': State, g': Book, lo: nat, hi: nat, z: nat, i: nat)
    requires Balanced(s, g, lo, hi) && Stayed(s, g, s', g', z, i) && i in g.busy[z] && !Retires(s, g, z, i)
    requires forall zi: nat :: zi in s.arrays && z in s.arrays[zi] ==> zi == s.zones[z].zi
    ensures Balanced(s', g', lo, hi)
  {
    hide Filled;
    forall x: nat ensures IsZone(s', x) <==> IsZone(s, x) {
      assert x in s'.zones.Keys <==> x in s.zones.Keys;
    }
    forall zi: nat ensures WholeAt(s', g', zi) {
      assert WholeAt(s, g, zi);
      StayedWhole(s, g, s', g', z, i, zi);
    }
  }

  lemma StayedWhole(s: State, g: Book, s': State, g': Book, z: nat, i: nat, zi: nat)
    requires WholeAt(s, g, zi) && Stayed(s, g, s', g', z, i) && i in g.busy[z] && !Retires(s, g, z, i)
    requires zi in s.arrays && z in s.arrays[zi] ==> zi == s.zones[z].zi
    ensures WholeAt(s', g', zi)
  {
    if zi in s.arrays && zi == s.zones[z].zi {
      var list := s.arrays[zi];
      if g'.busy[z] == {} {
        assert g.busy[z] == {i};
        assert forall x :: x in list ==> x == z;
      }
      assert list != [] ==> list[|list| - 1] in list;
    }
  }

  lemma RetiredBalanced(s: State, g: Book, s': State, g': Book, zs: nat, lo: nat, hi: nat, z: nat)
    requires Inv(s, g, zs) && Balanced(s, g, lo, hi) && Retired(s, g, s', g', z, zs / PAGE)
    ensures Balanced(s', g', lo, hi)
  {
    assert IsZone(s, z);
    if |s.spare| < 2 {
      forall x: nat ensures IsZone(s', x) <==> IsZone(s, x) {
        assert x in s'.zones.Keys <==> x in s.zones.Keys && x != z;
      }
    } else {
      forall x: nat ensures IsZone(s', x) <==> IsZone(s, x) && x != z {
        assert x in s'.zones.Keys <==> x in s.zones.Keys && x != z;
      }
      ReturnFills(g.held, s.runs, s'.runs, lo, hi, z);
    }
    hide Returned, Filled, Inv;
    forall zi: nat ensures WholeAt(s', g', zi) {
      RetiredWhole(s, g, s', g', z, zs / PAGE, zi);
    }
  }

  lemma RetiredWhole(s: State, g: Book, s': State, g': Book, z: nat, zp: nat, zi: nat)
    requires WholeLast(s, g) && Retired(s, g, s', g', z, zp)
    ensures WholeAt(s', g', zi)
  {
    assert WholeAt(s, g, zi);
    if zi in s.arrays && zi == s.zones[z].zi {
      var list := s.arrays[zi];
      if list != [] && list[|list| - 1] != z {
        LastWithout(list, z);
      }
    }
  }

  lemma GaveBalanced(s: State, g: Book, s': State, g': Book, zs: nat, lo: nat, hi: nat, l: Place)
    requires Inv(s, g, zs) && Balanced(s, g, lo, hi) && Live(s, g, l) && Gave(s, g, s', g', l, zs / PAGE)
    ensures Balanced(s', g', lo, hi)
  {
    hide Balanced, Retired, Stayed, GaveLarge, Retires;
    match l
    case Chunk(z, i) =>
      forall zi: nat | zi in s.arrays && z in s.arrays[zi] ensures zi == s.zones[z].zi {
        assert LinkedAt(s, z, zi);
      }
      if Retires(s, g, z, i) {
        RetiredBalanced(s, g, s', g', zs, lo, hi, z);
      } else {
        StayedBalanced(s, g, s', g', lo, hi, z, i);
      }
    case Pages(p) =>
      GaveLargeBalanced(s, g, s', g', lo, hi, p);
  }

  /** With every page free or held and none both, the runs that are held determine the list of free pages. */
  lemma FreePagesDetermined(g: Book, runs: seq<Run>, runs': seq<Run>, lo: nat, hi: nat)
    requires HeldOk(g, runs) && Filled(g.held, runs, lo, hi) && (forall p: nat :: Has(runs, p) ==> lo <= p < hi)
    requires HeldOk(g, runs') && Filled(g.held, runs', lo, hi) && (forall p: nat :: Has(runs', p) ==> lo <= p < hi)
    ensures runs == runs'
  {
    forall p: nat ensures Has(runs, p) <==> Has(runs', p) {
      if Covered(g.held, p) {
        var q: nat :| q in g.held && q <= p < q + g.held[q];
        assert TakenAt(g, runs, q) && TakenAt(g, runs', q);
      }
    }
    Canonical(runs, runs');
  }

  lemma ServedBalanced(s: State, g: Book, s': State, g': Book, zs: nat, lo: nat, hi: nat, size: nat, l: Place)
    requires Inv(s, g, zs) && ZoneSize(zs) && Balanced(s, g, lo, hi) && Served(s, g, s', g', zs, size, l)
             && 0 < size < WORD && (size >= Limit(zs) ==> LargePages(size) > 0)
    ensures Balanced(s', g', lo, hi)
  {
    hide Balanced, TookLarge, TookChunk, TookZone, NoChunk, Inv;
    if size >= Limit(zs) {
      TookLargeBalanced(s, g, s', g', zs, lo, hi, l.p, LargePages(size));
    } else if NoChunk(s, g, s'.zones[l.z].zi) {
      TookZoneBalanced(s, g, s', g', zs, lo, hi, l.z, s'.zones[l.z].zi);
    } else {
      TookChunkBalanced(s, g, s', g', lo, hi, l.z, l.i);
    }
  }

  lemma LargeRoundTrip(s: State, g: Book, s1: State, g1: Book, s2: State, g2: Book, p: nat, n: nat)
    requires HeldOk(g, s.runs) && HeldOk(g2, s2.runs) && TookLarge(s, g, s1, g1, p, n) && GaveLarge(s1, g1, s2, g2, p)
    ensures s2.runs == s.runs
  {
    forall q: nat ensures Has(s2.runs, q) <==> Has(s.runs, q) {
    }
    Canonical(s2.runs, s.runs);
  }

  /** The head of a list that is wholly free is its only zone. */
  lemma ChunkStays(s: State, g: Book, s1: State, g1: Book, zs: nat, z: nat, i: nat)
    requires Inv(s, g, zs) && WholeLast(s, g) && TookChunk(s, g, s1, g1, z, i)
    ensures !Retires(s1, g1, z, i)
  {
    var zi := s.zones[z].zi;
    var list := s.arrays[zi];
    hide Full;
    if g1.busy[z] == {i} {
      assert g.busy[z] == {};
      assert WholeAt(s, g, zi);
      DistinctIff(list);
      assert list == [z];
    }
  }

  lemma ZoneStays(s: State, g: Book, s1: State, g1: Book, z: nat, zi: nat, zp: nat)
    requires TookZone(s, g, s1, g1, z, zi, zp)
    ensures !Retires(s1, g1, z, 0)
  {
  }

  /** Giving back at once what was handed out restores the free pages, except where a new zone was made of them. */
  lemma RoundTrip(s: State, g: Book, s1: State, g1: Book, s2: State, g2: Book, zs: nat, size: nat, l: Place)
    requires Inv(s, g, zs) && Inv(s2, g2, zs) && ZoneSize(zs) && WholeLast(s, g)
    requires Served(s, g, s1, g1, zs, size, l) && Gave(s1, g1, s2, g2, l, zs / PAGE)
    ensures s2.runs == s.runs <==>
            size >= Limit(zs) || !NoChunk(s, g, ZoneIndex(size).0) || s.spare != []
  {
    hide Inv, ZoneIndex, Retires, NoChunk, WholeLast;
    if size >= Limit(zs) {
      LargeRoundTrip(s, g, s1, g1, s2, g2, l.p, LargePages(size));
    } else if NoChunk(s, g, s1.zones[l.z].zi) {
      ZoneStays(s, g, s1, g1, l.z, s1.zones[l.z].zi, zs / PAGE);
      if s.spare == [] {
        assert Has(s.runs, l.z) && !Has(s1.runs, l.z);
      }
    } else {
      ChunkStays(s, g, s1, g1, zs, l.z, l.i);
    }
  }
}
