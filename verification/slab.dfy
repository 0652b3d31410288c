/** The size classes of src/slab.c (`zoneindex`) and the layout of a zone. */
module ZoneClasses {

  const NZONES: nat := 72

  function RoundTo(n: nat, grain: nat): (r: nat)
    requires grain > 0
  {
    (n + grain - 1) / grain * grain
  }

  /** `zoneindex`: the index and the size of the chunks that serve a request. */
  function ZoneIndex(n: nat): (r: (int, nat)) {
    if n < 128 then
      var c := RoundTo(n, 8); (c / 8 - 1, c)
    else if n < 256 then
      var c := RoundTo(n, 16); (c / 16 + 7, c)
    else if n < 8192 then
      if n < 512 then
        var c := RoundTo(n, 32); (c / 32 + 15, c)
      else if n < 1024 then
        var c := RoundTo(n, 64); (c / 64 + 23, c)
      else if n < 2048 then
        var c := RoundTo(n, 128); (c / 128 + 31, c)
      else if n < 4096 then
        var c := RoundTo(n, 256); (c / 256 + 39, c)
      else
        var c := RoundTo(n, 512); (c / 512 + 47, c)
    else if n < 16384 then
      var c := RoundTo(n, 1024); (c / 1024 + 55, c)
    else (0, n)
  }

  /** The size of the chunks with a given index: eight sizes for every doubling, after sixteen steps of 8. */
  function ChunkSize(i: nat): (c: nat)
    requires i < NZONES
    ensures 8 <= c <= 16384
  {
    if i < 16 then (i + 1) * 8
    else if i < 24 then (i - 7) * 16
    else if i < 32 then (i - 15) * 32
    else if i < 40 then (i - 23) * 64
    else if i < 48 then (i - 31) * 128
    else if i < 56 then (i - 39) * 256
    else if i < 64 then (i - 47) * 512
    else (i - 55) * 1024
  }

  /** How many steps of `grain` cover `n`. */
  function Steps(n: nat, grain: nat): (k: nat)
    requires grain > 0
  {
    (n + grain - 1) / grain
  }

  lemma Rounded(n: nat, grain: nat)
    requires grain in {8, 16, 32, 64, 128, 256, 512, 1024}
    ensures var k := Steps(n, grain);
      RoundTo(n, grain) == k * grain && RoundTo(n, grain) / grain == k && n <= k * grain < n + grain
  {
    if grain == 8 {
    } else if grain == 16 {
    } else if grain == 32 {
    } else if grain == 64 {
    } else if grain == 128 {
    } else if grain == 256 {
    } else if grain == 512 {
    } else {
    }
  }

  /** The size classes in terms of steps. */
  lemma ZoneIndexSteps(n: nat)
    requires n < 16384
    ensures n < 128 ==> ZoneIndex(n) == (Steps(n, 8) - 1, Steps(n, 8) * 8) && n <= Steps(n, 8) * 8 < n + 8
    ensures 128 <= n < 256 ==> ZoneIndex(n) == (Steps(n, 16) + 7, Steps(n, 16) * 16) && n <= Steps(n, 16) * 16 < n + 16
    ensures 256 <= n < 512 ==> ZoneIndex(n) == (Steps(n, 32) + 15, Steps(n, 32) * 32) && n <= Steps(n, 32) * 32 < n + 32
    ensures 512 <= n < 1024 ==>
              ZoneIndex(n) == (Steps(n, 64) + 23, Steps(n, 64) * 64) && n <= Steps(n, 64) * 64 < n + 64
    ensures 1024 <= n < 2048 ==>
              ZoneIndex(n) == (Steps(n, 128) + 31, Steps(n, 128) * 128) && n <= Steps(n, 128) * 128 < n + 128
    ensures 2048 <= n < 4096 ==>
              ZoneIndex(n) == (Steps(n, 256) + 39, Steps(n, 256) * 256) && n <= Steps(n, 256) * 256 < n + 256
    ensures 4096 <= n < 8192 ==>
              ZoneIndex(n) == (Steps(n, 512) + 47, Steps(n, 512) * 512) && n <= Steps(n, 512) * 512 < n + 512
    ensures 8192 <= n ==>
              ZoneIndex(n) == (Steps(n, 1024) + 55, Steps(n, 1024) * 1024) && n <= Steps(n, 1024) * 1024 < n + 1024
  {
    hide RoundTo, Steps;
    Rounded(n, if n < 128 then 8 else if n < 256 then 16 else if n < 512 then 32 else if n < 1024 then 64
               else if n < 2048 then 128 else if n < 4096 then 256 else if n < 8192 then 512 else 1024);
  }

  /** The chunk covers the request and wastes little of itself. */
  lemma ZoneIndexFits(n: nat)
    requires 1 <= n < 16384
    ensures 0 <= ZoneIndex(n).0 < NZONES && n <= ZoneIndex(n).1
    ensures if n < 128 then ZoneIndex(n).1 - n < 8 else 8 * (ZoneIndex(n).1 - n) < n
    ensures ZoneIndex(n).1 == ChunkSize(ZoneIndex(n).0)
  {
    hide Steps, ZoneIndex;
    ZoneIndexSteps(n);
  }

  lemma ChunkSizeGrows(i: int, j: int)
    requires 0 <= i < NZONES && 0 <= j < NZONES
    ensures i < j ==> ChunkSize(i) < ChunkSize(j)
  {
  }

  lemma ClassInUse(i: nat)
    requires i < NZONES
    ensures ZoneIndex(ChunkSize(i) - 1) == (i, ChunkSize(i))
  {
    if i < 32 {
      ClassInUseLow(i);
    } else {
      ClassInUseHigh(i);
    }
  }

  lemma ClassInUseLow(i: nat)
    requires i < 32
    ensures ZoneIndex(ChunkSize(i) - 1) == (i, ChunkSize(i))
  {
    hide ZoneIndex, Steps;
    var n := ChunkSize(i) - 1;
    ZoneIndexSteps(n);
    if i < 16 {
      assert n < 128;
    } else if i < 24 {
      assert 128 <= n < 256;
    } else {
      assert 256 <= n < 512;
    }
  }

  lemma ClassInUseHigh(i: nat)
    requires 32 <= i < NZONES
    ensures ZoneIndex(ChunkSize(i) - 1) == (i, ChunkSize(i))
  {
    hide ZoneIndex, Steps;
    var n := ChunkSize(i) - 1;
    ZoneIndexSteps(n);
    if i < 40 {
      assert 512 <= n < 1024;
    } else if i < 48 {
      assert 1024 <= n < 2048;
    } else if i < 56 {
      assert 2048 <= n < 4096;
    } else if i < 64 {
      assert 4096 <= n < 8192;
    } else {
      assert 8192 <= n;
    }
  }

  /** Every index is in use, and the index determines the size and the size the index. */
  lemma ZoneIndexOneToOne(n: nat, m: nat, i: nat)
    requires 1 <= n < 16384 && 1 <= m < 16384 && i < NZONES
    ensures ZoneIndex(n).0 == ZoneIndex(m).0 <==> ZoneIndex(n).1 == ZoneIndex(m).1
    ensures ZoneIndex(ChunkSize(i) - 1) == (i, ChunkSize(i))
  {
    hide ZoneIndex, ChunkSize;
    ZoneIndexFits(n);
    ZoneIndexFits(m);
    ChunkSizeGrows(ZoneIndex(n).0, ZoneIndex(m).0);
    ChunkSizeGrows(ZoneIndex(m).0, ZoneIndex(n).0);
    ClassInUse(i);
  }

  lemma NextSmallerClass(n: nat)
    requires 1 <= n < 16384 && ZoneIndex(n).0 > 0
    ensures 1 <= ZoneIndex(n).0 < NZONES && ChunkSize(ZoneIndex(n).0 - 1) < n
  {
    hide Steps, ZoneIndex;
    ZoneIndexSteps(n);
  }

  /** The smallest class that covers the request. */
  lemma ZoneIndexLeast(n: nat, i: nat)
    requires 1 <= n < 16384 && i < NZONES && n <= ChunkSize(i)
    ensures ZoneIndex(n).0 <= i && ZoneIndex(n).1 <= ChunkSize(i)
  {
    hide ZoneIndex, ChunkSize;
    ZoneIndexFits(n);
    if ZoneIndex(n).0 > 0 {
      NextSmallerClass(n);
      ChunkSizeGrows(i, ZoneIndex(n).0 - 1);
      ChunkSizeGrows(ZoneIndex(n).0, i);
    } else {
      ChunkSizeGrows(0, i);
    }
  }

  predicate ZoneSize(zs: nat) {
    zs == 32768 || zs == 65536 || zs == 131072
  }

  /** Requests below the limit are served from zones. */
  function Limit(zs: nat): (l: nat)
    ensures zs == 32768 ==> l == 8192
    ensures zs == 65536 || zs == 131072 ==> l == 16384
  {
    if zs / 4 > 16384 then 16384 else zs / 4
  }

  /** Size of `slab_zone`. */
  const HEADER: nat := 36

  predicate PowerOfTwo(c: nat) {
    c in {8, 16, 32, 64, 128, 256, 512, 1024, 2048, 4096, 8192, 16384}
  }

  /** The test in the code singles out the powers of two among the chunk sizes. */
  lemma PowerTest(s: bv32)
    requires 8 <= s <= 16384
    ensures (s | (s - 1)) + 1 == s << 1 <==>
      s == 8 || s == 16 || s == 32 || s == 64 || s == 128 || s == 256 || s == 512 || s == 1024 || s == 2048
          || s == 4096 || s == 8192 || s == 16384
  {
  }

  /** Where the chunks of a zone begin. */
  function Offset(c: nat): (off: nat)
    requires c > 0
  {
    if PowerOfTwo(c) then RoundTo(HEADER, c) else RoundTo(HEADER, 8)
  }

  function Capacity(zs: nat, c: nat): (k: nat)
    requires c > 0
  {
    if zs < Offset(c) then 0 else (zs - Offset(c)) / c
  }

  lemma OffsetSmall(c: nat)
    requires c > 0
    ensures HEADER <= Offset(c) < HEADER + (if PowerOfTwo(c) then c else 8) && (Offset(c) <= 64 || Offset(c) == c)
  {
  }

  lemma MultiplyMonotone(x: nat, y: nat, b: nat)
    ensures x <= y ==> x * b <= y * b
  {
  }

  lemma DivideAtLeast(a: nat, b: nat, k: nat)
    requires b > 0 && k * b <= a
    ensures k <= a / b && a / b * b <= a < (a / b + 1) * b
  {
    assert a == b * (a / b) + a % b;
    MultiplyMonotone(a / b + 1, k, b);
  }

  /** A new zone has room for its header and at least three chunks, so that it is never linked empty. */
  lemma ZoneRoom(zs: nat, n: nat)
    requires ZoneSize(zs) && 1 <= n < Limit(zs)
    ensures var c := ZoneIndex(n).1;
      && c >= 8 && HEADER <= Offset(c) < HEADER + (if PowerOfTwo(c) then c else 8) && Capacity(zs, c) >= 3
      && Offset(c) + Capacity(zs, c) * c <= zs < Offset(c) + (Capacity(zs, c) + 1) * c
  {
    ZoneIndexFits(n);
    var c := ZoneIndex(n).1;
    ZoneIndexBelow(n, Limit(zs));
    OffsetSmall(c);
    assert 3 * c <= zs - Offset(c);
    DivideAtLeast(zs - Offset(c), c, 3);
  }

  lemma ZoneIndexBelow(n: nat, limit: nat)
    requires 1 <= n < limit && (limit == 8192 || limit == 16384)
    ensures 8 <= ZoneIndex(n).1 <= limit
  {
  }

  lemma MultipleAligned(x: nat, c: nat)
    requires c > 0
    ensures x * c % c == 0
  {
    var q, r := x * c / c, x * c % c;
    assert x * c == c * q + r;
    assert r == c * (x - q);
    NoSmallMultiple(c, x - q);
  }

  lemma NoSmallMultiple(c: int, d: int)
    requires c >= 0
    ensures d >= 1 ==> c * d >= c
    ensures d <= -1 ==> c * d <= -c
  {
  }

  /** Chunks whose size is a power of two up to the page size are aligned to their size. */
  lemma PowersAligned(base: nat, c: nat, i: nat)
    requires base % 4096 == 0 && PowerOfTwo(c) && c <= 4096
    ensures (base + Offset(c) + i * c) % c == 0
  {
    var pages, per, first := base / 4096, 4096 / c, (HEADER + c - 1) / c;
    assert per * c == 4096;
    assert base == pages * per * c;
    assert Offset(c) == first * c;
    assert base + Offset(c) + i * c == (pages * per + first + i) * c;
    MultipleAligned(pages * per + first + i, c);
  }
}

/** One zone of chunks (`slab_zone` in src/slab.c). */
module ZoneChunks {
  import opened Lists
  import opened ZoneClasses

  const PAGE: nat := 4096

  /** `chunks` is the list of free chunks, by address; slots beyond `uindex` have never been used. */
  datatype Zone = Zone(zi: nat, size: nat, nmax: nat, nfree: int, uindex: nat, base: nat, chunks: seq<nat>)

  function Slot(z: Zone, i: nat): (a: nat) {
    z.base + i * z.size
  }

  lemma SlotsApart(z: Zone, i: nat, j: nat)
    requires i < j
    ensures Slot(z, i) + z.size <= Slot(z, j)
  {
    MultiplyMonotone(i + 1, j, z.size);
  }

  lemma SlotInside(z: Zone, i: nat)
    requires i < z.nmax
    ensures z.base <= Slot(z, i) && Slot(z, i) + z.size <= z.base + z.nmax * z.size
  {
    MultiplyMonotone(i + 1, z.nmax, z.size);
  }

  ghost function Slots(z: Zone, idx: seq<nat>): (s: seq<nat>)
    ensures |s| == |idx|
  {
    if idx == [] then [] else [Slot(z, idx[0])] + Slots(z, idx[1..])
  }

  lemma {:induction false} SlotsFrame(z: Zone, y: Zone, idx: seq<nat>)
    requires z.base == y.base && z.size == y.size
    ensures Slots(z, idx) == Slots(y, idx)
  {
    if idx == [] {
    } else {
      SlotsFrame(z, y, idx[1..]);
    }
  }

  /** The header, the chunks and the counts of the zone at page `page`: `busy` are the slots handed out,
      `idx` the slots on the free list. */
  ghost predicate ZoneOk(page: nat, zs: nat, z: Zone, busy: set<nat>, idx: seq<nat>) {
    && Placed(page, zs, z)
    && Shared(z.uindex, busy, idx)
    && z.chunks == Slots(z, idx)
    && z.nfree == (z.nmax - 1 - z.uindex) + |idx|
  }

  ghost predicate Placed(page: nat, zs: nat, z: Zone) {
    && z.zi < NZONES && z.size == ChunkSize(z.zi) && z.uindex < z.nmax
    && page * PAGE + HEADER <= z.base && z.base + z.nmax * z.size <= page * PAGE + zs
    && Packed(page, zs, z)
  }

  /** The chunks begin right behind the header, as far as their alignment allows, and no further one fits. */
  ghost predicate Packed(page: nat, zs: nat, z: Zone) {
    && z.base < page * PAGE + HEADER + (if PowerOfTwo(z.size) then z.size else 8)
    && page * PAGE + zs < z.base + (z.nmax + 1) * z.size
  }

  /** The slots up to `top` are handed out or free, not both. */
  ghost predicate Shared(top: nat, busy: set<nat>, idx: seq<nat>) {
    && Distinct(idx)
    && (forall i: nat :: i in idx ==> i <= top && i !in busy)
    && (forall i: nat :: i in busy ==> i <= top)
    && (forall i: nat :: i <= top ==> i in busy || i in idx)
  }

  function FromUnused(z: Zone): (r: Zone) {
    z.(uindex := z.uindex + 1, nfree := z.nfree - 1)
  }

  function FromList(z: Zone): (r: Zone)
    requires z.chunks != []
  {
    z.(chunks := z.chunks[1..], nfree := z.nfree - 1)
  }

  function GiveBack(z: Zone, ptr: nat): (r: Zone) {
    z.(chunks := [ptr] + z.chunks, nfree := z.nfree + 1)
  }

  lemma FromUnusedOk(page: nat, zs: nat, z: Zone, busy: set<nat>, idx: seq<nat>)
    requires ZoneOk(page, zs, z, busy, idx) && z.uindex + 1 != z.nmax
    ensures ZoneOk(page, zs, FromUnused(z), busy + {z.uindex + 1}, idx) && z.uindex + 1 !in busy
  {
    SlotsFrame(z, FromUnused(z), idx);
  }

  lemma FromListOk(page: nat, zs: nat, z: Zone, busy: set<nat>, idx: seq<nat>)
    requires ZoneOk(page, zs, z, busy, idx) && z.uindex + 1 == z.nmax && z.nfree > 0
    ensures z.chunks != [] && idx != [] && z.chunks[0] == Slot(z, idx[0]) && idx[0] !in busy
    ensures ZoneOk(page, zs, FromList(z), busy + {idx[0]}, idx[1..])
  {
    SlotsFrame(z, FromList(z), idx[1..]);
    assert idx == [idx[0]] + idx[1..] && idx[0] in idx && idx[0] !in idx[1..];
    assert forall i: nat :: i in idx[1..] ==> i in idx && i != idx[0];
    assert z.chunks[1..] == Slots(z, idx[1..]);
  }

  lemma GiveBackOk(page: nat, zs: nat, z: Zone, busy: set<nat>, idx: seq<nat>, i: nat)
    requires ZoneOk(page, zs, z, busy, idx) && i in busy
    ensures ZoneOk(page, zs, GiveBack(z, Slot(z, i)), busy - {i}, [i] + idx)
  {
    assert ([i] + idx)[1..] == idx;
    SlotsFrame(z, GiveBack(z, Slot(z, i)), [i] + idx);
  }

  function Fresh(page: nat, zs: nat, zi: nat, size: nat): (z: Zone)
    requires size > 0
  {
    var k := Capacity(zs, size);
    Zone(zi, size, k, k - 1, 0, page * PAGE + Offset(size), [])
  }

  lemma FreshOk(page: nat, zs: nat, n: nat)
    requires ZoneSize(zs) && 1 <= n < Limit(zs)
    ensures 0 <= ZoneIndex(n).0 && ZoneIndex(n).1 >= 8
    ensures ZoneOk(page, zs, Fresh(page, zs, ZoneIndex(n).0, ZoneIndex(n).1), {0}, [])
    ensures Fresh(page, zs, ZoneIndex(n).0, ZoneIndex(n).1).nfree > 0
  {
    hide ZoneIndex, Offset;
    ZoneIndexFits(n);
    ZoneRoom(zs, n);
  }

  /** As many different numbers below `n` as there are: all of them. */
  lemma {:induction false} Pigeonhole(s: seq<nat>, n: nat)
    requires Distinct(s) && (forall x: nat :: x in s ==> x < n)
    ensures |s| <= n && (|s| == n ==> forall x: nat :: x < n ==> x in s)
    decreases n
  {
    assert s != [] ==> s[0] in s;
    if n == 0 {
    } else {
      var rest := Without(s, n - 1);
      WithoutDistinct(s, n - 1);
      Pigeonhole(rest, n - 1);
    }
  }

  /** The count of free chunks reaches the capacity exactly when no chunk is handed out. */
  lemma AllFreeIff(page: nat, zs: nat, z: Zone, busy: set<nat>, idx: seq<nat>)
    requires ZoneOk(page, zs, z, busy, idx)
    ensures z.nfree == z.nmax <==> busy == {}
    ensures 0 <= z.nfree <= z.nmax
  {
    Pigeonhole(idx, z.uindex + 1);
    if busy == {} {
      AllListed(idx, z.uindex + 1);
    } else {
      var i :| i in busy;
      assert i !in idx;
    }
  }

  lemma {:induction false} AllListed(s: seq<nat>, n: nat)
    requires Distinct(s) && forall x: nat :: x < n ==> x in s
    ensures |s| >= n
    decreases n
  {
    if n == 0 {
    } else {
      WithoutDistinct(s, n - 1);
      AllListed(Without(s, n - 1), n - 1);
    }
  }
}

/** The zones, the lists that link them, the page map and the free pages, and what they stand for. */
module SlabState {
  import opened Lists
  import opened PageRuns
  import opened ZoneClasses
  import opened ZoneChunks

  /** `struct memusage` of a page. */
  datatype Usage = Unused | InZone(off: nat) | LargeBlock(n: nat)

  /** Zones are named by their first page. `arrays` and `spare` are `zone_array` and `zone_free`. */
  datatype State = State(zones: map<nat, Zone>, arrays: map<nat, seq<nat>>, spare: seq<nat>, usage: map<nat, Usage>,
                         runs: seq<Run>)

  /** The slots handed out and on the free list of every zone, the runs of pages that are not free,
      and which of these are large blocks. */
  datatype Book = Book(busy: map<nat, set<nat>>, idx: map<nat, seq<nat>>, held: map<nat, nat>, larges: set<nat>)

  ghost predicate ZoneAt(s: State, g: Book, zs: nat, z: nat) {
    z in s.zones && z in g.busy && z in g.idx ==> ZoneOk(z, zs, s.zones[z], g.busy[z], g.idx[z])
  }

  ghost predicate ZonesOk(s: State, g: Book, zs: nat) {
    && s.zones.Keys == g.busy.Keys == g.idx.Keys
    && forall z {:trigger ZoneAt(s, g, zs, z)} :: ZoneAt(s, g, zs, z)
  }

  /** A zone is linked in the list of its class iff it has free chunks, and in no other list. */
  ghost predicate LinkedAt(s: State, z: nat, zi: nat) {
    zi in s.arrays ==> (z in s.arrays[zi] <==> z in s.zones && s.zones[z].zi == zi && s.zones[z].nfree > 0)
  }

  ghost predicate ListsOk(s: State) {
    && (forall zi: nat :: zi < NZONES ==> zi in s.arrays)
    && (forall zi: nat :: zi in s.arrays ==> Distinct(s.arrays[zi]))
    && (forall z, zi {:trigger LinkedAt(s, z, zi)} :: LinkedAt(s, z, zi))
  }

  /** At most two whole zones are kept. */
  ghost predicate SpareOk(s: State) {
    Distinct(s.spare) && |s.spare| <= 2 && forall z: nat :: z in s.spare ==> z !in s.zones
  }

  ghost predicate ApartAt(g: Book, p: nat, q: nat) {
    p in g.held && q in g.held && p != q ==> p + g.held[p] <= q || q + g.held[q] <= p
  }

  ghost predicate TakenAt(g: Book, runs: seq<Run>, p: nat) {
    p in g.held ==> g.held[p] > 0 && NoneFree(runs, p, g.held[p])
  }

  /** Runs of pages that were handed out overlap neither each other nor free pages. */
  ghost predicate HeldOk(g: Book, runs: seq<Run>) {
    && Canon(runs)
    && (forall p {:trigger TakenAt(g, runs, p)} :: TakenAt(g, runs, p))
    && (forall p, q {:trigger ApartAt(g, p, q)} :: ApartAt(g, p, q))
  }

  predicate IsZone(s: State, z: nat) {
    z in s.zones || z in s.spare
  }

  ghost predicate OwnersOk(s: State, g: Book, zp: nat) {
    && (forall z: nat {:trigger IsZone(s, z)} :: IsZone(s, z) ==> z in g.held && g.held[z] == zp && z !in g.larges)
    && (forall p: nat :: p in g.larges ==> p in g.held && p in s.usage && s.usage[p] == LargeBlock(g.held[p]))
  }

  /** The page map of a zone. */
  ghost predicate Mapped(usage: map<nat, Usage>, z: nat, zp: nat) {
    forall p: nat :: z <= p < z + zp ==> p in usage && usage[p] == InZone(p - z)
  }

  ghost predicate MapOk(s: State, zp: nat) {
    forall z: nat {:trigger IsZone(s, z)} :: IsZone(s, z) ==> Mapped(s.usage, z, zp)
  }

  ghost predicate Inv(s: State, g: Book, zs: nat)
    ensures Inv(s, g, zs) ==>
              ZonesOk(s, g, zs) && ListsOk(s) && SpareOk(s) && HeldOk(g, s.runs) && OwnersOk(s, g, zs / PAGE)
                  && MapOk(s, zs / PAGE)
  {
    ZonesOk(s, g, zs) && ListsOk(s) && SpareOk(s) && HeldOk(g, s.runs) && OwnersOk(s, g, zs / PAGE)
        && MapOk(s, zs / PAGE)
  }

  /** Something that was handed out: a chunk of a zone, or a run of pages. */
  datatype Place = Chunk(z: nat, i: nat) | Pages(p: nat)

  ghost predicate Live(s: State, g: Book, l: Place) {
    match l
    case Chunk(z, i) => z in s.zones && z in g.busy && i in g.busy[z]
    case Pages(p) => p in g.larges && p in g.held
  }

  ghost function Addr(s: State, l: Place): (a: nat)
    requires l.Chunk? ==> l.z in s.zones
  {
    match l
    case Chunk(z, i) => Slot(s.zones[z], i)
    case Pages(p) => p * PAGE
  }

  ghost function Len(s: State, g: Book, l: Place): (n: nat)
    requires Live(s, g, l)
  {
    match l
    case Chunk(z, i) => s.zones[z].size
    case Pages(p) => g.held[p] * PAGE
  }

  /** The run of pages a live place lies in. */
  function HomePage(l: Place): (p: nat) {
    match l
    case Chunk(z, _) => z
    case Pages(p) => p
  }

  /** A live place lies within its run of pages, behind the header if that is a zone. */
  lemma LiveInside(s: State, g: Book, zs: nat, l: Place)
    requires Inv(s, g, zs) && zs % PAGE == 0 && Live(s, g, l)
    ensures var h := HomePage(l);
      && h in g.held && (l.Chunk? ==> g.held[h] == zs / PAGE && IsZone(s, h))
      && h * PAGE + (if l.Chunk? then HEADER else 0) <= Addr(s, l)
      && Addr(s, l) + Len(s, g, l) <= (h + g.held[h]) * PAGE
  {
    match l
    case Chunk(z, i) =>
      assert ZoneAt(s, g, zs, z) && IsZone(s, z);
      SlotInside(s.zones[z], i);
    case Pages(p) =>
  }

  /** Live places never overlap. */
  lemma LiveApart(s: State, g: Book, zs: nat, l: Place, m: Place)
    requires Inv(s, g, zs) && zs % PAGE == 0 && Live(s, g, l) && Live(s, g, m) && l != m
    ensures Addr(s, l) + Len(s, g, l) <= Addr(s, m) || Addr(s, m) + Len(s, g, m) <= Addr(s, l)
  {
    LiveInside(s, g, zs, l);
    LiveInside(s, g, zs, m);
    if HomePage(l) == HomePage(m) {
      assert IsZone(s, HomePage(l)) || IsZone(s, HomePage(m)) || (l.Pages? && m.Pages?);
      if l.Chunk? && m.Chunk? {
        if l.i < m.i {
          SlotsApart(s.zones[l.z], l.i, m.i);
        } else {
          SlotsApart(s.zones[l.z], m.i, l.i);
        }
      }
    } else {
      assert ApartAt(g, HomePage(l), HomePage(m));
    }
  }

  /** The page map leads from any live address back to where it belongs. */
  lemma PageMapRight(s: State, g: Book, zs: nat, l: Place)
    requires Inv(s, g, zs) && zs % PAGE == 0 && zs > 0 && Live(s, g, l)
    ensures var p := Addr(s, l) / PAGE;
      && p in s.usage
      && (l.Chunk? ==> p >= l.z && s.usage[p] == InZone(p - l.z))
      && (l.Pages? ==> p == l.p && s.usage[p] == LargeBlock(g.held[p]))
  {
    LiveInside(s, g, zs, l);
    if l.Chunk? {
      assert IsZone(s, l.z) && ZoneAt(s, g, zs, l.z);
      assert Mapped(s.usage, l.z, zs / PAGE);
    }
  }

  /** `l` is gone or new, everything else that is live is where it was. */
  ghost predicate OthersLive(s: State, g: Book, s': State, g': Book, l: Place) {
    forall m: Place {:trigger Live(s', g', m)} {:trigger Live(s, g, m)} :: m != l ==>
      && (Live(s', g', m) <==> Live(s, g, m))
      && (Live(s, g, m) && Live(s', g', m) ==> Addr(s', m) == Addr(s, m) && Len(s', g', m) == Len(s, g, m))
  }

  lemma SameZones(s: State, g: Book, s': State, g': Book, zs: nat)
    requires s'.zones == s.zones && s'.arrays == s.arrays && g'.busy == g.busy && g'.idx == g.idx
    requires ZonesOk(s, g, zs) && ListsOk(s)
    ensures ZonesOk(s', g', zs) && ListsOk(s')
  {
    hide ZoneOk;
    forall x ensures ZoneAt(s', g', zs, x) {
      assert ZoneAt(s, g, zs, x);
    }
    forall x, zi ensures LinkedAt(s', x, zi) {
      assert LinkedAt(s, x, zi);
    }
  }

  /** The zone at `z` changes, and is linked or not as its count says. */
  function WithZone(s: State, z: nat, y: Zone, list: seq<nat>): (r: State) {
    s.(zones := s.zones[z := y], arrays := s.arrays[y.zi := list])
  }

  function WithBook(g: Book, z: nat, busy: set<nat>, idx: seq<nat>): (r: Book) {
    g.(busy := g.busy[z := busy], idx := g.idx[z := idx])
  }

  /** `list` is the list of the class, with or without `z`. */
  ghost predicate Relinked(old_: seq<nat>, z: nat, linked: bool, list: seq<nat>) {
    Distinct(list) && forall x: nat :: x in list <==> if x == z then linked else x in old_
  }

  lemma WithZoneInv(s: State, g: Book, zs: nat, z: nat, y: Zone, busy: set<nat>, idx: seq<nat>, list: seq<nat>)
    requires Inv(s, g, zs) && z !in s.spare && z in g.held && g.held[z] == zs / PAGE && z !in g.larges
             && Mapped(s.usage, z, zs / PAGE)
    requires y.zi < NZONES && (z in s.zones ==> s.zones[z].zi == y.zi)
    requires ZoneOk(z, zs, y, busy, idx) && Relinked(s.arrays[y.zi], z, y.nfree > 0, list)
    ensures Inv(WithZone(s, z, y, list), WithBook(g, z, busy, idx), zs)
  {
    hide ZoneOk, Mapped, Distinct;
    var s', g' := WithZone(s, z, y, list), WithBook(g, z, busy, idx);
    forall x ensures ZoneAt(s', g', zs, x) {
      assert ZoneAt(s, g, zs, x);
    }
    forall x, zi ensures LinkedAt(s', x, zi) {
      assert LinkedAt(s, x, zi);
    }
    forall x: nat | IsZone(s', x) ensures x in g'.held && g'.held[x] == zs / PAGE && x !in g'.larges
        && Mapped(s'.usage, x, zs / PAGE) {
      assert x != z ==> IsZone(s, x);
    }
    forall p ensures TakenAt(g', s'.runs, p) {
      assert TakenAt(g, s.runs, p);
    }
    forall p, q ensures ApartAt(g', p, q) {
      assert ApartAt(g, p, q);
    }
  }

  /** A chunk of a zone that stays where it is was handed out or given back. */
  lemma WithZoneLive(s: State, g: Book, z: nat, y: Zone, busy: set<nat>, idx: seq<nat>, list: seq<nat>, i: nat)
    requires z in s.zones && z in g.busy ==>
               s.zones[z].base == y.base && s.zones[z].size == y.size && busy - {i} == g.busy[z] - {i}
    requires !(z in s.zones && z in g.busy) ==> busy == {i}
    ensures OthersLive(s, g, WithZone(s, z, y, list), WithBook(g, z, busy, idx), Chunk(z, i))
  {
    var s', g' := WithZone(s, z, y, list), WithBook(g, z, busy, idx);
    forall m: Place | m != Chunk(z, i)
      ensures Live(s', g', m) <==> Live(s, g, m)
      ensures Live(s, g, m) && Live(s', g', m) ==> Addr(s', m) == Addr(s, m) && Len(s', g', m) == Len(s, g, m) {
      if m.Chunk? && m.z == z && z in s.zones && z in g.busy {
        assert m.i in busy - {i} <==> m.i in g.busy[z] - {i};
      }
    }
  }

  ghost predicate SameLive(s: State, g: Book, s': State, g': Book) {
    forall m: Place {:trigger Live(s', g', m)} {:trigger Live(s, g, m)} ::
      && (Live(s', g', m) <==> Live(s, g, m))
      && (Live(s, g, m) && Live(s', g', m) ==> Addr(s', m) == Addr(s, m) && Len(s', g', m) == Len(s, g, m))
  }

  /** A whole zone that was kept is taken into use again. */
  lemma UnspareInv(s: State, g: Book, zs: nat)
    requires Inv(s, g, zs) && s.spare != []
    ensures var z, s' := s.spare[0], s.(spare := s.spare[1..]);
      && Inv(s', g, zs) && SameLive(s, g, s', g) && z !in s'.spare && z !in s.zones
      && z in g.held && g.held[z] == zs / PAGE && z !in g.larges && Mapped(s.usage, z, zs / PAGE)
  {
    hide ZoneOk, Mapped;
    var s' := s.(spare := s.spare[1..]);
    assert IsZone(s, s.spare[0]);
    forall x ensures ZoneAt(s', g, zs, x) {
      assert ZoneAt(s, g, zs, x);
    }
    forall x, zi ensures LinkedAt(s', x, zi) {
      assert LinkedAt(s, x, zi);
    }
    assert forall x: nat :: IsZone(s', x) ==> IsZone(s, x);
  }

  ghost predicate UsageElsewhere(usage: map<nat, Usage>, usage': map<nat, Usage>, a: nat, n: nat) {
    forall p: nat :: p in usage && !(a <= p < a + n) ==> p in usage' && usage'[p] == usage[p]
  }

  lemma MappedElsewhere(usage: map<nat, Usage>, usage': map<nat, Usage>, a: nat, n: nat, z: nat, zp: nat)
    requires Mapped(usage, z, zp) && UsageElsewhere(usage, usage', a, n) && (z + zp <= a || a + n <= z)
    ensures Mapped(usage', z, zp)
  {
  }

  /** A run of pages is handed out; the page map changes there only. */
  lemma GrabInv(s: State, g: Book, zs: nat, a: nat, n: nat, runs: seq<Run>, usage: map<nat, Usage>)
    requires Inv(s, g, zs) && n > 0 && zs / PAGE > 0
    requires AllFree(s.runs, a, n) && Canon(runs)
             && (forall p: nat :: Has(runs, p) <==> Has(s.runs, p) && !(a <= p < a + n))
    requires UsageElsewhere(s.usage, usage, a, n)
    ensures a !in g.held && !IsZone(s, a)
    ensures Inv(s.(runs := runs, usage := usage), g.(held := g.held[a := n]), zs)
    ensures SameLive(s, g, s.(runs := runs, usage := usage), g.(held := g.held[a := n]))
  {
    hide ZoneOk, Mapped, Canon, UsageElsewhere;
    var s', g' := s.(runs := runs, usage := usage), g.(held := g.held[a := n]);
    HeldElsewhere(s, g, zs, a, n);
    SameZones(s, g, s', g', zs);
    forall x: nat | IsZone(s', x) ensures Mapped(usage, x, zs / PAGE) && x in g'.held && g'.held[x] == zs / PAGE
        && x !in g'.larges {
      assert IsZone(s, x);
      MappedElsewhere(s.usage, usage, a, n, x, zs / PAGE);
    }
    forall p: nat | p in g.larges ensures p in usage && usage[p] == LargeBlock(g.held[p]) && p != a {
      UsageKept(s.usage, usage, a, n, p);
    }
    forall p ensures TakenAt(g', runs, p) {
      assert TakenAt(g, s.runs, p);
    }
    forall p, q ensures ApartAt(g', p, q) {
      assert ApartAt(g, p, q);
    }
    assert IsZone(s, a) ==> a in g.held;
  }

  lemma UsageKept(usage: map<nat, Usage>, usage': map<nat, Usage>, a: nat, n: nat, p: nat)
    requires UsageElsewhere(usage, usage', a, n) && p in usage && !(a <= p < a + n)
    ensures p in usage' && usage'[p] == usage[p]
  {
  }

  lemma HeldElsewhere(s: State, g: Book, zs: nat, a: nat, n: nat)
    requires Inv(s, g, zs) && n > 0 && AllFree(s.runs, a, n)
    ensures forall p :: p in g.held ==> p + g.held[p] <= a || a + n <= p
    ensures a !in g.held
  {
    forall p | p in g.held ensures p + g.held[p] <= a || a + n <= p {
      assert TakenAt(g, s.runs, p);
      var x := if p < a then a else p;
      assert a <= x < a + n ==> Has(s.runs, x);
    }
    assert TakenAt(g, s.runs, a) && Has(s.runs, a);
  }

  function DropZone(s: State, z: nat): (r: State)
    requires z in s.zones && s.zones[z].zi in s.arrays
  {
    s.(zones := s.zones - {z}, arrays := s.arrays[s.zones[z].zi := Without(s.arrays[s.zones[z].zi], z)])
  }

  function DropBook(g: Book, z: nat): (r: Book) {
    g.(busy := g.busy - {z}, idx := g.idx - {z})
  }

  /** A zone leaves its list and the books; its pages are still held. */
  lemma DropZoneInv(s: State, g: Book, zs: nat, z: nat)
    requires Inv(s, g, zs) && z in s.zones
    ensures s.zones[z].zi in s.arrays
    ensures Inv(DropZone(s, z), DropBook(g, z), zs) && !IsZone(DropZone(s, z), z)
    ensures z in g.held && g.held[z] == zs / PAGE && z !in g.larges && Mapped(s.usage, z, zs / PAGE)
  {
    assert ZoneAt(s, g, zs, z) && IsZone(s, z);
    hide ZoneOk, Mapped, Distinct;
    var s', g' := DropZone(s, z), DropBook(g, z);
    WithoutDistinct(s.arrays[s.zones[z].zi], z);
    forall x ensures ZoneAt(s', g', zs, x) {
      assert ZoneAt(s, g, zs, x);
    }
    forall x, zi ensures LinkedAt(s', x, zi) {
      assert LinkedAt(s, x, zi);
    }
    assert forall x: nat :: IsZone(s', x) ==> IsZone(s, x);
    forall p ensures TakenAt(g', s'.runs, p) {
      assert TakenAt(g, s.runs, p);
    }
    forall p, q ensures ApartAt(g', p, q) {
      assert ApartAt(g, p, q);
    }
  }

  lemma DropZoneLive(s: State, g: Book, z: nat)
    requires z in s.zones && s.zones[z].zi in s.arrays && z in g.busy && g.busy[z] == {}
    ensures SameLive(s, g, DropZone(s, z), DropBook(g, z))
  {
  }

  /** A whole zone is kept for later. */
  lemma RespareInv(s: State, g: Book, zs: nat, z: nat)
    requires Inv(s, g, zs) && |s.spare| < 2 && !IsZone(s, z)
    requires z in g.held && g.held[z] == zs / PAGE && z !in g.larges && Mapped(s.usage, z, zs / PAGE)
    ensures Inv(s.(spare := [z] + s.spare), g, zs) && SameLive(s, g, s.(spare := [z] + s.spare), g)
  {
    hide ZoneOk, Mapped;
    var s' := s.(spare := [z] + s.spare);
    assert ([z] + s.spare)[1..] == s.spare;
    forall x ensures ZoneAt(s', g, zs, x) {
      assert ZoneAt(s, g, zs, x);
    }
    forall x, zi ensures LinkedAt(s', x, zi) {
      assert LinkedAt(s, x, zi);
    }
    assert forall x: nat :: IsZone(s', x) ==> x == z || IsZone(s, x);
  }

  lemma ReturnHeld(g: Book, runs: seq<Run>, a: nat)
    requires HeldOk(g, runs) && a in g.held
    ensures NoneFree(runs, a, g.held[a]) && g.held[a] > 0
    ensures HeldOk(g.(held := g.held - {a}), FreeRun(runs, a, g.held[a]))
  {
    assert TakenAt(g, runs, a);
    hide Canon, FreeRun;
    var n, g' := g.held[a], g.(held := g.held - {a});
    FreeCanon(runs, a, n);
    forall p ensures TakenAt(g', FreeRun(runs, a, n), p) {
      assert TakenAt(g, runs, p) && ApartAt(g, p, a);
      if p in g'.held {
        forall x | p <= x < p + g.held[p] ensures !Has(FreeRun(runs, a, n), x) {
          FreeGives(runs, a, n, x);
        }
      }
    }
    forall p, q ensures ApartAt(g', p, q) {
      assert ApartAt(g, p, q);
    }
  }

  lemma ReturnOwners(s: State, g: Book, zp: nat, a: nat, s': State)
    requires HeldOk(g, s.runs) && OwnersOk(s, g, zp) && MapOk(s, zp) && a in g.held && !IsZone(s, a) && a !in g.larges
    requires s' == s.(runs := s'.runs, usage := s'.usage) && UsageElsewhere(s.usage, s'.usage, a, g.held[a])
    ensures OwnersOk(s', g.(held := g.held - {a}), zp) && MapOk(s', zp)
  {
    hide Mapped, Canon, UsageElsewhere;
    forall x: nat | IsZone(s', x) ensures Mapped(s'.usage, x, zp) && x in g.held && x != a && g.held[x] == zp
        && x !in g.larges {
      assert IsZone(s, x) && ApartAt(g, x, a);
      MappedElsewhere(s.usage, s'.usage, a, g.held[a], x, zp);
    }
    forall p: nat | p in g.larges ensures p in s'.usage && s'.usage[p] == LargeBlock(g.held[p]) {
      assert ApartAt(g, p, a) && TakenAt(g, s.runs, p);
      UsageKept(s.usage, s'.usage, a, g.held[a], p);
    }
  }

  /** A run of pages that nothing uses any more goes back. */
  lemma ReturnInv(s: State, g: Book, zs: nat, a: nat, usage: map<nat, Usage>)
    requires Inv(s, g, zs) && a in g.held && !IsZone(s, a) && a !in g.larges
    requires UsageElsewhere(s.usage, usage, a, g.held[a])
    ensures NoneFree(s.runs, a, g.held[a]) && g.held[a] > 0
    ensures Inv(s.(runs := FreeRun(s.runs, a, g.held[a]), usage := usage), g.(held := g.held - {a}), zs)
    ensures SameLive(s, g, s.(runs := FreeRun(s.runs, a, g.held[a]), usage := usage), g.(held := g.held - {a}))
  {
    hide HeldOk, OwnersOk, MapOk, ZonesOk, ListsOk, UsageElsewhere, FreeRun, NoneFree;
    var s', g' := s.(runs := FreeRun(s.runs, a, g.held[a]), usage := usage), g.(held := g.held - {a});
    ReturnHeld(g, s.runs, a);
    ReturnOwners(s, g, zs / PAGE, a, s');
    SameZones(s, g, s', g', zs);
  }

  /** The head of a list of zones is linked: it has free chunks. */
  lemma HeadHasFree(s: State, g: Book, zs: nat, zi: nat)
    requires Inv(s, g, zs) && zi < NZONES && s.arrays[zi] != []
    ensures var z := s.arrays[zi][0];
      && z in s.zones && z in g.busy && z in g.idx && z !in s.spare && s.zones[z].zi == zi && s.zones[z].nfree > 0
      && ZoneOk(z, zs, s.zones[z], g.busy[z], g.idx[z])
      && z in g.held && g.held[z] == zs / PAGE && z !in g.larges && Mapped(s.usage, z, zs / PAGE)
  {
    var z := s.arrays[zi][0];
    assert LinkedAt(s, z, zi) && ZoneAt(s, g, zs, z) && IsZone(s, z);
  }

  /** What rt_malloc does with the first zone of a list: the zone, the chunk and the list afterwards. */
  function TakeZone(y: Zone): (r: Zone) {
    if y.uindex + 1 != y.nmax then FromUnused(y) else if y.chunks == [] then y else FromList(y)
  }

  function TakeSlot(y: Zone): (a: nat) {
    if y.uindex + 1 != y.nmax then Slot(y, y.uindex + 1) else if y.chunks == [] then 0 else y.chunks[0]
  }

  function TakeList(y: Zone, list: seq<nat>): (r: seq<nat>)
    requires list != []
  {
    if y.nfree - 1 == 0 then list[1..] else list
  }

  /** Once every slot has been used, the chunk given back last is handed out first. */
  lemma LastInFirstOut(y: Zone, ptr: nat)
    ensures y.uindex + 1 == y.nmax ==> TakeSlot(GiveBack(y, ptr)) == ptr && TakeZone(GiveBack(y, ptr)) == y
    ensures y.uindex + 1 < y.nmax ==> TakeSlot(y) == y.base + (y.uindex + 1) * y.size
  {
    assert GiveBack(y, ptr).chunks[1..] == y.chunks;
  }

  ghost function SlotTaken(g: Book, z: nat, y: Zone): (i: nat)
    requires z in g.idx
  {
    if y.uindex + 1 != y.nmax then y.uindex + 1 else if g.idx[z] == [] then 0 else g.idx[z][0]
  }

  ghost function TakeBook(g: Book, z: nat, y: Zone): (r: Book)
    requires z in g.idx && z in g.busy
  {
    WithBook(g, z, g.busy[z] + {SlotTaken(g, z, y)},
             if y.uindex + 1 != y.nmax || g.idx[z] == [] then g.idx[z] else g.idx[z][1..])
  }

  lemma TakeZoneOk(page: nat, zs: nat, y: Zone, g: Book)
    requires page in g.busy && page in g.idx && ZoneOk(page, zs, y, g.busy[page], g.idx[page]) && y.nfree > 0
    ensures ZoneOk(page, zs, TakeZone(y), TakeBook(g, page, y).busy[page], TakeBook(g, page, y).idx[page])
    ensures TakeSlot(y) == Slot(y, SlotTaken(g, page, y)) && SlotTaken(g, page, y) !in g.busy[page]
    ensures TakeZone(y).base == y.base && TakeZone(y).size == y.size && TakeZone(y).zi == y.zi
            && TakeZone(y).nfree == y.nfree - 1
  {
    if y.uindex + 1 != y.nmax {
      FromUnusedOk(page, zs, y, g.busy[page], g.idx[page]);
    } else {
      FromListOk(page, zs, y, g.busy[page], g.idx[page]);
    }
  }

  /** Handing out a chunk of a zone that is linked. */
  lemma TakeChunkInv(s: State, g: Book, zs: nat, zi: nat)
    requires Inv(s, g, zs) && zi < NZONES && s.arrays[zi] != []
    ensures s.arrays[zi][0] in s.zones && s.arrays[zi][0] in g.busy && s.arrays[zi][0] in g.idx
    ensures var z := s.arrays[zi][0]; var y := s.zones[z]; var l := Chunk(z, SlotTaken(g, z, y));
            var s', g' := WithZone(s, z, TakeZone(y), TakeList(y, s.arrays[zi])), TakeBook(g, z, y);
      && y.zi == TakeZone(y).zi == zi && Inv(s', g', zs) && OthersLive(s, g, s', g', l) && !Live(s, g, l)
          && Live(s', g', l)
      && Addr(s', l) == TakeSlot(y) && Len(s', g', l) == y.size
  {
    HeadHasFree(s, g, zs, zi);
    var z := s.arrays[zi][0];
    var y, list := s.zones[z], s.arrays[zi];
    hide ZoneOk, Inv, TakeZone, TakeSlot;
    TakeZoneOk(z, zs, y, g);
    var g' := TakeBook(g, z, y);
    assert Distinct(list);
    assert Relinked(list, z, y.nfree - 1 > 0, TakeList(y, list));
    hide Distinct, Relinked;
    WithZoneInv(s, g, zs, z, TakeZone(y), g'.busy[z], g'.idx[z], TakeList(y, list));
    WithZoneLive(s, g, z, TakeZone(y), g'.busy[z], g'.idx[z], TakeList(y, list), SlotTaken(g, z, y));
  }

  /** Handing out the first chunk of a new zone. */
  lemma NewZoneInv(s: State, g: Book, zs: nat, n: nat, z: nat)
    requires Inv(s, g, zs) && ZoneSize(zs) && 1 <= n < Limit(zs) && !IsZone(s, z)
    requires z in g.held && g.held[z] == zs / PAGE && z !in g.larges && Mapped(s.usage, z, zs / PAGE)
    ensures 0 <= ZoneIndex(n).0 < NZONES && ZoneIndex(n).1 >= n && ZoneIndex(n).0 in s.arrays
    ensures var zi, size := ZoneIndex(n).0, ZoneIndex(n).1; var l := Chunk(z, 0);
            var s', g' := WithZone(s, z, Fresh(z, zs, zi, size), [z] + s.arrays[zi]), WithBook(g, z, {0}, []);
      && Inv(s', g', zs) && OthersLive(s, g, s', g', l) && !Live(s, g, l) && Live(s', g', l)
      && Addr(s', l) == Fresh(z, zs, zi, size).base && Len(s', g', l) == size
  {
    hide ZoneIndex, Mapped;
    ZoneIndexFits(n);
    FreshOk(z, zs, n);
    var zi, size := ZoneIndex(n).0, ZoneIndex(n).1;
    var y := Fresh(z, zs, zi, size);
    assert LinkedAt(s, z, zi);
    assert Slot(y, 0) == y.base;
    assert ([z] + s.arrays[zi])[1..] == s.arrays[zi];
    assert Relinked(s.arrays[zi], z, true, [z] + s.arrays[zi]);
    hide ZoneOk, Relinked, Inv;
    WithZoneInv(s, g, zs, z, y, {0}, [], [z] + s.arrays[zi]);
    WithZoneLive(s, g, z, y, {0}, [], [z] + s.arrays[zi], 0);
  }

  function GiveList(y: Zone, z: nat, list: seq<nat>): (r: seq<nat>) {
    if y.nfree == 0 then [z] + list else list
  }

  ghost function GiveBook(g: Book, z: nat, i: nat): (r: Book)
    requires z in g.idx && z in g.busy
  {
    WithBook(g, z, g.busy[z] - {i}, [i] + g.idx[z])
  }

  /** Giving a chunk back to its zone. */
  lemma GiveChunkInv(s: State, g: Book, zs: nat, z: nat, i: nat)
    requires Inv(s, g, zs) && Live(s, g, Chunk(z, i))
    ensures z in g.idx && s.zones[z].zi in s.arrays
    ensures var y, l := s.zones[z], Chunk(z, i);
            var s', g' := WithZone(s, z, GiveBack(y, Slot(y, i)), GiveList(y, z, s.arrays[y.zi])), GiveBook(g, z, i);
      && Inv(s', g', zs) && OthersLive(s, g, s', g', l) && !Live(s', g', l)
      && z in s'.arrays[y.zi] && (s'.zones[z].nfree == s'.zones[z].nmax <==> g'.busy[z] == {})
  {
    var y := s.zones[z];
    assert ZoneAt(s, g, zs, z) && IsZone(s, z);
    var list, g' := s.arrays[y.zi], GiveBook(g, z, i);
    assert LinkedAt(s, z, y.zi);
    GiveBackOk(z, zs, y, g.busy[z], g.idx[z], i);
    AllFreeIff(z, zs, y, g.busy[z], g.idx[z]);
    AllFreeIff(z, zs, GiveBack(y, Slot(y, i)), g'.busy[z], g'.idx[z]);
    assert ([z] + list)[1..] == list;
    assert Relinked(list, z, y.nfree + 1 > 0, GiveList(y, z, list));
    hide ZoneOk, Relinked, Inv, Slot;
    WithZoneInv(s, g, zs, z, GiveBack(y, Slot(y, i)), g'.busy[z], g'.idx[z], GiveList(y, z, list));
    WithZoneLive(s, g, z, GiveBack(y, Slot(y, i)), g'.busy[z], g'.idx[z], GiveList(y, z, list), i);
  }

  /** A run of pages that is held becomes a large block, or stops being one. */
  lemma LargeInv(s: State, g: Book, zs: nat, a: nat)
    requires Inv(s, g, zs) && a in g.held && !IsZone(s, a) && a in s.usage && s.usage[a] == LargeBlock(g.held[a])
             && a !in g.larges
    ensures Inv(s, g.(larges := g.larges + {a}), zs)
    ensures OthersLive(s, g, s, g.(larges := g.larges + {a}), Pages(a))
  {
    hide ZoneOk, Mapped, Canon;
    var g' := g.(larges := g.larges + {a});
    SameZones(s, g, s, g', zs);
    forall p ensures TakenAt(g', s.runs, p) {
      assert TakenAt(g, s.runs, p);
    }
    forall p, q ensures ApartAt(g', p, q) {
      assert ApartAt(g, p, q);
    }
  }

  lemma UnlargeInv(s: State, g: Book, zs: nat, a: nat)
    requires Inv(s, g, zs) && a in g.larges
    ensures a in g.held && !IsZone(s, a)
    ensures Inv(s, g.(larges := g.larges - {a}), zs)
    ensures OthersLive(s, g, s, g.(larges := g.larges - {a}), Pages(a))
  {
    hide ZoneOk, Mapped, Canon;
    var g' := g.(larges := g.larges - {a});
    SameZones(s, g, s, g', zs);
    forall p ensures TakenAt(g', s.runs, p) {
      assert TakenAt(g, s.runs, p);
    }
    forall p, q ensures ApartAt(g', p, q) {
      assert ApartAt(g, p, q);
    }
  }

  /** Nothing moved in either step. */
  lemma LiveTrans(s: State, g: Book, s1: State, g1: Book, s2: State, g2: Book, l: Place)
    requires (OthersLive(s, g, s1, g1, l) && SameLive(s1, g1, s2, g2))
             || (SameLive(s, g, s1, g1) && OthersLive(s1, g1, s2, g2, l))
    ensures OthersLive(s, g, s2, g2, l)
  {
    forall m: Place | m != l
      ensures Live(s2, g2, m) <==> Live(s, g, m)
      ensures Live(s, g, m) && Live(s2, g2, m) ==> Addr(s2, m) == Addr(s, m) && Len(s2, g2, m) == Len(s, g, m) {
      assert Live(s1, g1, m) <==> Live(s, g, m);
      assert Live(s2, g2, m) <==> Live(s1, g1, m);
    }
  }

  /** Where the allocator itself keeps data: in free pages and in the headers of zones. */
  predicate Kernel(s: State, i: nat) {
    Has(s.runs, i / PAGE) || exists z :: z in s.zones.Keys + (set x | x in s.spare) && z * PAGE <= i < z * PAGE + HEADER
  }

  /** No header and no free page overlaps anything that is handed out. */
  lemma LiveClear(s: State, g: Book, zs: nat, l: Place, i: nat)
    requires Inv(s, g, zs) && ZoneSize(zs) && Live(s, g, l) && Addr(s, l) <= i < Addr(s, l) + Len(s, g, l)
    ensures !Kernel(s, i)
  {
    LiveInside(s, g, zs, l);
    var h := HomePage(l);
    assert TakenAt(g, s.runs, h);
    assert h <= i / PAGE < h + g.held[h];
    forall z | z in s.zones.Keys + (set x | x in s.spare) ensures !(z * PAGE <= i < z * PAGE + HEADER) {
      assert IsZone(s, z);
      assert z != h ==> ApartAt(g, z, h);
      assert l.Pages? ==> z != h;
    }
  }
}

/** The allocator itself (rt_malloc, rt_realloc, rt_free in src/slab.c). */
module Slab {
  import opened Lists
  import opened Options
  import opened PageRuns
  import opened Payloads
  import opened Requests
  import opened SlabState
  import opened SlabSteps
  import opened ZoneChunks
  import opened ZoneClasses
  import opened Numbers

  /** `l` is new, at `ptr`, with room for `n` bytes; nothing else that is live has moved. */
  ghost predicate Gained(s: State, g: Book, s': State, g': Book, l: Place, ptr: nat, n: nat) {
    && !Live(s, g, l) && Live(s', g', l) && OthersLive(s, g, s', g', l)
    && Addr(s', l) == ptr && Len(s', g', l) >= n
  }

  ghost predicate Lost(s: State, g: Book, s': State, g': Book, l: Place) {
    Live(s, g, l) && !Live(s', g', l) && OthersLive(s, g, s', g', l)
  }

  /** The bytes of everything that is live before and after keep their values. */
  ghost predicate Untouched(s: State, g: Book, s': State, g': Book, m: map<nat, int>, m': map<nat, int>) {
    && m'.Keys == m.Keys
    && forall q: Place, i: nat {:trigger Live(s, g, q), m'[i]} ::
         Live(s, g, q) && Live(s', g', q) && Addr(s, q) <= i < Addr(s, q) + Len(s, g, q) && i in m ==> m'[i] == m[i]
  }

  ghost predicate Bounded(held: map<nat, nat>, runs: seq<Run>, lo: nat, hi: nat) {
    && (forall p: nat :: Has(runs, p) ==> lo <= p < hi)
    && (forall p: nat :: p in held ==> lo <= p && p + held[p] <= hi)
  }

  /** Writes to headers, to free pages and to the first word of the chunk given back spare what is live. */
  lemma WritesSpareLive(s: State, g: Book, s': State, g': Book, zs: nat, l: Place, m: map<nat, int>,
                        m': map<nat, int>, word: nat)
    requires Inv(s, g, zs) && Inv(s', g', zs) && ZoneSize(zs) && OthersLive(s, g, s', g', l) && m'.Keys == m.Keys
    requires !(Live(s, g, l) && Live(s', g', l))
    requires word == 0 || (word <= 8 && Live(s, g, l) && l.Chunk?)
    requires forall i: nat ::
               i in m && !Kernel(s', i)
               && !(word > 0 && l.Chunk? && l.z in s.zones && Addr(s, l) <= i < Addr(s, l) + word) ==>
                 m'[i] == m[i]
    ensures Untouched(s, g, s', g', m, m')
  {
    hide Inv, Kernel, OthersLive, Addr;
    forall q: Place, i: nat | Live(s, g, q) && Live(s', g', q) && Addr(s, q) <= i < Addr(s, q) + Len(s, g, q) && i in m
      ensures m'[i] == m[i] {
      MovedNot(s, g, s', g', l, q);
      LiveClear(s', g', zs, q, i);
      if word > 0 {
        ChunkLength(s, g, zs, l);
        LiveApart(s, g, zs, l, q);
      }
    }
  }

  lemma MovedNot(s: State, g: Book, s': State, g': Book, l: Place, q: Place)
    requires OthersLive(s, g, s', g', l) && Live(s, g, q) && Live(s', g', q) && !(Live(s, g, l) && Live(s', g', l))
    ensures q != l && Addr(s', q) == Addr(s, q) && Len(s', g', q) == Len(s, g, q)
  {
  }

  lemma ChunkLength(s: State, g: Book, zs: nat, l: Place)
    requires Inv(s, g, zs) && Live(s, g, l) && l.Chunk?
    ensures Len(s, g, l) >= 8
  {
    assert ZoneAt(s, g, zs, l.z);
  }

  /** Every list of zones is empty at first. */
  method NoZones() returns (r: map<nat, seq<nat>>)
    ensures forall zi: nat :: (zi in r <==> zi < NZONES) && (zi in r ==> r[zi] == [])
  {
    r := map[];
    var i := 0;
    while i < NZONES
      invariant i <= NZONES && forall zi: nat :: (zi in r <==> zi < i) && (zi in r ==> r[zi] == [])
    {
      r := r[i := []];
      i := i + 1;
    }
  }

  /** The zone size for a heap of `limsize` bytes. */
  method ChooseZoneSize(limsize: nat) returns (zs: nat)
    ensures ZoneSize(zs) && (zs == 131072 || zs * 2 >= limsize / 1024) && (zs == 32768 || zs < limsize / 1024)
  {
    zs := 32768;
    while zs < 131072 && zs * 2 < limsize / 1024
      invariant ZoneSize(zs) && (zs == 32768 || zs < limsize / 1024)
      decreases 131072 - zs
    {
      zs := zs * 2;
    }
  }

  /** Pages for the page map, with four bytes for every page. */
  function UsagePages(npages: nat): (k: nat) {
    RoundTo(npages * 4, PAGE) / PAGE
  }

  lemma UsageFits(npages: nat)
    requires npages > 0
    ensures 0 < UsagePages(npages) <= npages
    ensures (UsagePages(npages) - 1) * PAGE < npages * 4 <= UsagePages(npages) * PAGE
  {
  }

  lemma HeapStart(lo: nat, n: nat, k: nat, zs: nat, arrays: map<nat, seq<nat>>)
    requires 0 < k <= n && ZoneSize(zs) && forall zi: nat ::
               (zi in arrays <==> zi < NZONES) && (zi in arrays ==> arrays[zi] == [])
    ensures AllocRun([Run(lo, n)], k).0 == Some(lo)
    ensures var runs, g := AllocRun([Run(lo, n)], k).1, Book(map[], map[], map[lo := k], {});
            && Inv(State(map[], arrays, [], map[], runs), g, zs) && Bounded(g.held, runs, lo, lo + n)
            && Balanced(State(map[], arrays, [], map[], runs), g, lo, lo + n)
            && forall p: nat :: Has(runs, p) <==> lo + k <= p < lo + n
  {
    var all := [Run(lo, n)];
    var runs, g := AllocRun(all, k).1, Book(map[], map[], map[lo := k], {});
    assert all[1..] == [];
    assert Canon(all);
    AllocCanon(all, k);
    forall p: nat ensures Has(runs, p) <==> lo + k <= p < lo + n {
      AllocTakes(all, k, p);
      assert Has(all, p) <==> lo <= p < lo + n;
    }
    forall p ensures TakenAt(g, runs, p) {
    }
    assert lo in g.held;
  }

  class Slab {
    const zs: nat
    const lo: nat
    const hi: nat
    const pages: PageList
    var zones: map<nat, Zone>
    var arrays: map<nat, seq<nat>>
    var spare: seq<nat>
    /** `zone_free_cnt`. */
    var spareCount: nat
    var usage: map<nat, Usage>
    var mem: map<nat, int>
    ghost var book: Book

    function S(): (s: State)
      reads this`zones, this`arrays, this`spare, this`usage, pages
    {
      State(zones, arrays, spare, usage, pages.runs)
    }

    ghost predicate Sound()
      reads this`zones, this`arrays, this`spare, this`spareCount, this`usage, this`book, pages
    {
      spareCount == |spare| && ZoneSize(zs) && Inv(S(), book, zs) && Bounded(book.held, pages.runs, lo, hi)
    }

    ghost predicate Valid()
      reads this, pages
    {
      Sound() && Balanced(S(), book, lo, hi) && forall i: nat :: i in mem <==> lo * PAGE <= i < hi * PAGE
    }

    /** rt_system_heap_init on the pages from `lo` to `hi`; the page map takes the first pages. */
    constructor (lo: nat, hi: nat, bytes: map<nat, int>)
      requires lo < hi && forall i: nat :: i in bytes <==> lo * PAGE <= i < hi * PAGE
      ensures Valid() && this.lo == lo && this.hi == hi && fresh(pages)
      ensures zones == map[] && spare == [] && book.larges == {}
              && (forall zi: nat :: zi in arrays ==> arrays[zi] == [])
      ensures forall p: nat :: Has(pages.runs, p) <==> lo + UsagePages(hi - lo) <= p < hi
      ensures zs == 131072 || zs * 2 >= (hi - lo) * PAGE / 1024
      ensures zs == 32768 || zs < (hi - lo) * PAGE / 1024
    {
      hide Inv, AllocRun, Bounded, UsagePages, Balanced;
      var size := ChooseZoneSize((hi - lo) * PAGE);
      this.zs, this.lo, this.hi := size, lo, hi;
      zones, spare, spareCount, usage, mem := map[], [], 0, map[], bytes;
      var none := NoZones();
      arrays := none;
      var list := new PageList(lo, hi - lo);
      pages := list;
      book := Book(map[], map[], map[lo := UsagePages(hi - lo)], {});
      new;
      var k := UsagePages(hi - lo);
      UsageFits(hi - lo);
      var r := pages.Alloc(k);
      HeapStart(lo, hi - lo, k, zs, arrays);
    }

    /** What the allocator writes besides the fields above. */
    method WriteKernel(from: nat, word: nat)
      modifies this`mem
      ensures mem.Keys == old(mem).Keys
      ensures forall i: nat :: i in mem && !Kernel(S(), i) && !(from <= i < from + word) ==> mem[i] == old(mem)[i]
    {
      var junk: nat -> int := *;
      var s := S();
      mem := map i: nat | i in mem :: if Kernel(s, i) || from <= i < from + word then junk(i) else mem[i];
    }

    /** A chunk from the first zone of a list. */
    method TakeChunk(zi: nat) returns (ptr: nat, ghost l: Place)
      requires Sound() && zi < NZONES && zi in arrays && arrays[zi] != []
      modifies this`zones, this`arrays, this`book
      ensures Sound() && arrays.Keys == old(arrays).Keys
      ensures old(arrays)[zi][0] in old(zones)
              && Gained(old(S()), old(book), S(), book, l, ptr, old(zones)[old(arrays)[zi][0]].size)
      ensures l.Chunk? && l.z in zones && zones[l.z].zi == zi && TookChunk(old(S()), old(book), S(), book, l.z, l.i)
    {
      TakeChunkTook(S(), book, zs, zi);
      hide Inv, TakeZone, TakeSlot, OthersLive, Bounded, Live, Addr, Len, TookChunk;
      TakeChunkInv(S(), book, zs, zi);
      var z := arrays[zi][0];
      var y := zones[z];
      l := Chunk(z, SlotTaken(book, z, y));
      ghost var g' := TakeBook(book, z, y);
      var list := arrays[zi];
      if y.nfree - 1 == 0 {
        list := list[1..];
      }
      ptr := TakeSlot(y);
      zones := zones[z := TakeZone(y)];
      arrays := arrays[zi := list];
      book := g';
    }

    /** A whole zone: one that was kept, or new pages, entered in the page map. */
    method ObtainZone() returns (r: Option<nat>)
      requires Sound()
      modifies this`spare, this`spareCount, this`usage, this`book, pages
      ensures Sound() && SameLive(old(S()), old(book), S(), book)
      ensures r.None? <==> old(spare) == [] && NoRoom(old(pages.runs), zs / PAGE)
      ensures r.None? ==> S() == old(S()) && book == old(book)
      ensures r.Some? ==> Obtained(old(S()), old(book), S(), book, r.value, zs / PAGE)
      ensures r.Some? ==> var z := r.value;
        && !IsZone(S(), z) && z in book.held && book.held[z] == zs / PAGE && z !in book.larges
            && Mapped(usage, z, zs / PAGE)
    {
      hide Inv, SameLive, Mapped, Bounded, NoRoom, Grabbed;
      if spare != [] {
        UnspareInv(S(), book, zs);
        var z := spare[0];
        spare, spareCount := spare[1..], spareCount - 1;
        return Some(z);
      }
      ghost var s, g := S(), book;
      r := GrabPages(zs / PAGE);
      if r.None? {
        SameLiveRefl(s, g);
        return;
      }
      var z := r.value;
      GrabbedPages(s.runs, pages.runs, z, zs / PAGE);
      usage := MapZone(usage, z, zs / PAGE);
      book := g.(held := g.held[z := zs / PAGE]);
      GrabInv(s, g, zs, z, zs / PAGE, pages.runs, usage);
      GrabBounded(g.held, s.runs, pages.runs, lo, hi, z, zs / PAGE);
    }

    /** rt_page_alloc, in terms of the pages that are free. */
    method GrabPages(n: nat) returns (r: Option<nat>)
      requires Canon(pages.runs) && n > 0
      modifies pages
      ensures r.None? <==> NoRoom(old(pages.runs), n)
      ensures r.None? ==> pages.runs == old(pages.runs)
      ensures r.Some? ==> Canon(pages.runs) && Grabbed(old(pages.runs), pages.runs, r.value, n)
    {
      ghost var runs := pages.runs;
      r := pages.Alloc(n);
      AllocCanon(runs, n);
      AllocFailsIff(runs, n);
      hide AllocRun, Canon;
      if r.Some? {
        forall p: nat ensures Has(pages.runs, p) <==> Has(runs, p) && !(r.value <= p < r.value + n) {
          AllocTakes(runs, n, p);
        }
        AllocTakes(runs, n, 0);
        forall b: nat | AllFree(runs, b, n) ensures r.value <= b {
          AllocLowest(runs, n, b);
        }
      }
    }

    /** The first chunk of a new zone. */
    method NewZone(n: nat) returns (ptr: Option<nat>, ghost l: Place)
      requires Sound() && 1 <= n < Limit(zs) && 0 <= ZoneIndex(n).0 && ZoneIndex(n).0 in arrays
               && arrays[ZoneIndex(n).0] == []
      modifies this`zones, this`arrays, this`spare, this`spareCount, this`usage, this`book, pages
      ensures Sound()
      ensures ptr.None? <==> old(spare) == [] && NoRoom(old(pages.runs), zs / PAGE)
      ensures ptr.None? ==> S() == old(S()) && book == old(book)
      ensures ptr.Some? ==> Gained(old(S()), old(book), S(), book, l, ptr.value, n)
      ensures ptr.Some? ==>
                && l.Chunk? && l.i == 0 && l.z in zones && ZoneIndex(n) == (zones[l.z].zi, zones[l.z].size)
                && TookZone(old(S()), old(book), S(), book, l.z, zones[l.z].zi, zs / PAGE)
    {
      hide Inv, SameLive, OthersLive, Mapped, Bounded, NoRoom, Obtained, ZoneIndex, Live, Addr, Len, Fresh;
      l := Chunk(0, 0);
      ghost var s, g := S(), book;
      var r := ObtainZone();
      if r.None? {
        return None, l;
      }
      var z := r.value;
      ghost var s1, g1 := S(), book;
      NewZoneInv(s1, g1, zs, n, z);
      var (zi, size) := ZoneIndex(n);
      var y := Fresh(z, zs, zi, size);
      zones := zones[z := y];
      arrays := arrays[zi := [z] + arrays[zi]];
      book := WithBook(g1, z, {0}, []);
      l := Chunk(z, 0);
      FreshClass(z, zs, zi, size);
      ObtainedTook(s, g, s1, g1, S(), book, z, zi, zs / PAGE);
      LiveTrans(s, g, s1, g1, S(), book, l);
      WasNotLive(s, g, s1, g1, l);
      ptr := Some(y.base);
    }

    /** A run of pages for a large request. */
    method AllocLarge(n: nat) returns (ptr: Option<nat>, ghost l: Place)
      requires Sound() && n > 0
      modifies this`usage, this`book, pages
      ensures Sound()
      ensures ptr.None? <==> NoRoom(old(pages.runs), n)
      ensures ptr.None? ==> S() == old(S()) && book == old(book)
      ensures ptr.Some? ==> Gained(old(S()), old(book), S(), book, l, ptr.value, n * PAGE)
      ensures ptr.Some? ==> l.Pages? && TookLarge(old(S()), old(book), S(), book, l.p, n)
    {
      hide Inv, SameLive, OthersLive, Bounded, UsageElsewhere, NoRoom, Grabbed;
      l := Pages(0);
      ghost var s, g := S(), book;
      var r := GrabPages(n);
      if r.None? {
        return None, l;
      }
      var a := r.value;
      GrabbedPages(s.runs, pages.runs, a, n);
      usage := usage[a := LargeBlock(n)];
      OneElsewhere(s.usage, a, n, LargeBlock(n));
      GrabInv(s, g, zs, a, n, pages.runs, usage);
      GrabBounded(g.held, s.runs, pages.runs, lo, hi, a, n);
      ghost var g1 := g.(held := g.held[a := n]);
      LargeHeld(s, g, zs);
      LargeInv(S(), g1, zs, a);
      book := g1.(larges := g1.larges + {a});
      l := Pages(a);
      LiveTrans(s, g, S(), g1, S(), book, l);
      ptr := Some(a * PAGE);
    }

    /** A chunk for a request below the limit, from the first zone of its list or from a new zone. */
    method AllocChunk(size: nat) returns (ptr: Option<nat>, ghost l: Place)
      requires Sound() && 0 < size < Limit(zs)
      modifies this`zones, this`arrays, this`spare, this`spareCount, this`usage, this`book, pages
      ensures Sound()
      ensures ptr.None? <==>
                && NoChunk(old(S()), old(book), ZoneIndex(size).0)
                && old(spare) == [] && NoRoom(old(pages.runs), zs / PAGE)
      ensures ptr.None? ==> S() == old(S()) && book == old(book)
      ensures ptr.Some? ==>
                && Gained(old(S()), old(book), S(), book, l, ptr.value, size)
                && Served(old(S()), old(book), S(), book, zs, size, l)
    {
      hide Inv, OthersLive, Bounded, ZoneIndex, Live, Addr, Len, NoRoom, NoChunk, TookLarge, TookChunk, TookZone;
      ZoneIndexFits(size);
      ClassListed(S(), book, zs, size);
      var zi := ZoneIndex(size).0;
      NoChunkIff(S(), book, zs, zi);
      if arrays[zi] != [] {
        HeadSize(S(), book, zs, size);
        ghost var s, g := S(), book;
        var a;
        a, l := TakeChunk(zi);
        TookSize(s, g, S(), book, l.z, l.i, zi);
        ptr := Some(a);
      } else {
        ptr, l := NewZone(size);
      }
    }

    /** rt_malloc. */
    method Malloc(size: nat) returns (ptr: Option<nat>, ghost l: Place)
      requires Valid() && size < WORD
      modifies this, pages
      ensures Valid()
      ensures ptr.None? <==> MallocFails(old(S()), old(book), zs, size)
      ensures ptr.None? ==> S() == old(S()) && book == old(book) && mem == old(mem)
      ensures ptr.Some? ==> Gained(old(S()), old(book), S(), book, l, ptr.value, size)
      ensures ptr.Some? ==> Untouched(old(S()), old(book), S(), book, old(mem), mem)
      ensures ptr.Some? ==> Served(old(S()), old(book), S(), book, zs, size, l)
    {
      hide Inv, OthersLive, Bounded, ZoneIndex, Live, Addr, Len, Untouched, NoRoom, NoChunk, TookLarge, TookChunk,
           TookZone, Balanced;
      ptr, l := None, Pages(0);
      ghost var s, g := S(), book;
      if size == 0 {
        return;
      }
      LargeCovers(size);
      if size >= Limit(zs) {
        var n := LargePages(size);
        if n > 0 {
          ptr, l := AllocLarge(n);
        }
      } else {
        ptr, l := AllocChunk(size);
      }
      if ptr.Some? {
        ServedBalanced(s, g, S(), book, zs, lo, hi, size, l);
        WriteKernel(0, 0);
        WritesSpareLive(s, g, S(), book, zs, l, old(mem), mem, 0);
      }
    }

    /** rt_page_free of a run that is held and not in use any more. */
    method ReturnPages(a: nat, n: nat)
      requires Sound() && a in book.held && book.held[a] == n && !IsZone(S(), a) && a !in book.larges
      modifies this`book, pages
      ensures Sound() && SameLive(old(S()), old(book), S(), book)
      ensures book == old(book).(held := old(book).held - {a}) && Returned(old(pages.runs), pages.runs, a, n)
    {
      hide Inv, SameLive, Bounded, UsageElsewhere, FreeRun, Returned;
      ghost var s, g := S(), book;
      SameElsewhere(usage, a, n);
      ReturnInv(s, g, zs, a, usage);
      ReturnBounded(g.held, s.runs, lo, hi, a);
      pages.Free(a, n);
      book := g.(held := g.held - {a});
      FreeReturns(s.runs, a, n);
    }

    /** The first part of rt_free for a large block. */
    method FreeLarge(p: nat)
      requires Sound() && p in book.larges && p in book.held && p in usage && usage[p] == LargeBlock(book.held[p])
      modifies this`usage, this`book, pages
      ensures Sound() && Lost(old(S()), old(book), S(), book, Pages(p))
      ensures GaveLarge(old(S()), old(book), S(), book, p)
    {
      hide Inv, SameLive, OthersLive, Bounded, UsageElsewhere, Returned;
      ghost var s, g := S(), book;
      UnlargeInv(s, g, zs, p);
      var n := usage[p].n;
      ghost var g1 := g.(larges := g.larges - {p});
      ClearUsage(s, g1, zs, p, LargeBlock(0));
      usage := usage[p := LargeBlock(0)];
      book := g1;
      ghost var s1 := S();
      LiveTrans(s, g, s, g1, s1, g1, Pages(p));
      ReturnPages(p, n);
      LiveTrans(s, g, s1, g1, S(), book, Pages(p));
    }

    /** A whole zone that has become free is kept, or its pages go back if two are kept already. */
    method RetireZone(z: nat)
      requires Sound() && z in zones && z in book.busy && book.busy[z] == {} && zones[z].zi in arrays
      modifies this`zones, this`arrays, this`spare, this`spareCount, this`usage, this`book, pages
      ensures Sound() && SameLive(old(S()), old(book), S(), book) && spareCount == |spare| <= 2
      ensures Retired(old(S()), old(book), S(), book, z, zs / PAGE)
    {
      hide Inv, SameLive, OthersLive, Bounded, UsageElsewhere, Mapped, Returned;
      ghost var s, g := S(), book;
      DropZoneInv(s, g, zs, z);
      DropZoneLive(s, g, z);
      var zi := zones[z].zi;
      arrays := arrays[zi := Without(arrays[zi], z)];
      zones := zones - {z};
      book := DropBook(g, z);
      ghost var s1, g1 := S(), book;
      SpareFew(s1, g1, zs);
      spare, spareCount := [z] + spare, spareCount + 1;
      if spareCount > 2 {
        spare, spareCount := spare[1..], spareCount - 1;
        assert S() == s1;
        usage := UnmapZone(usage, z, zs / PAGE);
        ClearZone(s1, g1, zs, z, usage);
        ghost var s2 := S();
        SameTrans(s, g, s1, g1, s2, g1);
        ReturnPages(z, zs / PAGE);
        SameTrans(s, g, s2, g1, S(), book);
      } else {
        RespareInv(s1, g1, zs, z);
        SameTrans(s, g, s1, g1, S(), book);
      }
    }

    /** rt_free of a chunk of the zone at `z`. */
    method FreeChunk(z: nat, ptr: nat, ghost i: nat)
      requires Sound() && Live(S(), book, Chunk(z, i)) && Addr(S(), Chunk(z, i)) == ptr
      modifies this`zones, this`arrays, this`spare, this`spareCount, this`usage, this`book, pages
      ensures Sound() && Lost(old(S()), old(book), S(), book, Chunk(z, i)) && spareCount == |spare| <= 2
      ensures GaveChunk(old(S()), old(book), S(), book, z, i, zs / PAGE)
    {
      ghost var s, g, l := S(), book, Chunk(z, i);
      GiveChunkInv(s, g, zs, z, i);
      GiveChunkStays(s, g, zs, z, i);
      SpareFew(s, g, zs);
      hide Inv, SameLive, OthersLive, Bounded, Retires, Stayed, Retired;
      var y := zones[z];
      var list := arrays[y.zi];
      if y.nfree == 0 {
        list := [z] + list;
      }
      y := GiveBack(y, ptr);
      zones := zones[z := y];
      arrays := arrays[y.zi := list];
      book := GiveBook(g, z, i);
      ghost var s1, g1 := S(), book;
      if y.nfree == y.nmax && (list[|list| - 1] != z || list[0] != z) {
        RetireZone(z);
        RetiredBoth(s, g, s1, g1, S(), book, z, i, zs / PAGE);
        LiveTrans(s, g, s1, g1, S(), book, l);
        WasNotLive(S(), book, s1, g1, l) by { SameSym(s1, g1, S(), book); }
      }
    }

    /** rt_free of something that is live. */
    method Release(ptr: nat, ghost l: Place)
      requires Valid() && Live(S(), book, l) && Addr(S(), l) == ptr
      modifies this, pages
      ensures Valid() && Lost(old(S()), old(book), S(), book, l)
      ensures Untouched(old(S()), old(book), S(), book, old(mem), mem)
      ensures Gave(old(S()), old(book), S(), book, l, zs / PAGE)
    {
      ghost var s, g := S(), book;
      PageMapRight(s, g, zs, l);
      LargeHeld(s, g, zs);
      var p := ptr / PAGE;
      hide Inv, OthersLive, Bounded, Untouched, Balanced, GaveLarge, GaveChunk;
      if usage[p].LargeBlock? {
        FreeLarge(p);
        WriteKernel(0, 0);
        WritesSpareLive(s, g, S(), book, zs, l, old(mem), mem, 0);
      } else {
        var z := p - usage[p].off;
        FreeChunk(z, ptr, l.i);
        WriteKernel(ptr, 4);
        WritesSpareLive(s, g, S(), book, zs, l, old(mem), mem, 4);
      }
      GaveBalanced(s, g, S(), book, zs, lo, hi, l);
    }

    /** rt_free. */
    method Free(ptr: Option<nat>, ghost l: Place)
      requires Valid() && (ptr.Some? ==> Live(S(), book, l) && Addr(S(), l) == ptr.value)
      modifies this, pages
      ensures Valid()
      ensures ptr.None? ==> S() == old(S()) && book == old(book) && mem == old(mem)
      ensures ptr.Some? ==>
                && Lost(old(S()), old(book), S(), book, l) && Untouched(old(S()), old(book), S(), book, old(mem), mem)
                && Gave(old(S()), old(book), S(), book, l, zs / PAGE)
    {
      hide Inv, OthersLive, Bounded, Untouched, Balanced, Gave, Live, Addr;
      if ptr.Some? {
        Release(ptr.value, l);
      }
    }

    /** Moves the first `n` bytes of what is at `ptr` to a new place for `size` bytes. */
    method Move(ptr: nat, size: nat, n: nat, ghost l: Place) returns (r: Option<nat>, ghost k: Place)
      requires Valid() && 0 < size < WORD && Live(S(), book, l) && Addr(S(), l) == ptr && n <= size
               && n <= Len(S(), book, l)
      modifies this, pages
      ensures Valid()
      ensures r.None? <==> MallocFails(old(S()), old(book), zs, size)
      ensures r.None? ==> S() == old(S()) && book == old(book) && mem == old(mem)
      ensures r.Some? ==> k != l && Moved(old(S()), old(book), S(), book, l, k, r.value, size)
      ensures r.Some? ==>
                Carried(old(mem), mem, ptr, r.value, n) && OthersUntouched(old(S()), old(book), old(mem), mem, l)
    {
      hide Inv, OthersLive, Bounded, Untouched, Addr, Len, Carried, Live, OthersUntouched, Balanced, MallocFails,
           Served, Gave;
      ghost var s, g, m := S(), book, mem;
      r, k := Malloc(size);
      if r.None? {
        return;
      }
      ghost var s1, g1, m1 := S(), book, mem;
      StillThere(s, g, s1, g1, k, l);
      InMemory(s1, g1, zs, lo, hi, l);
      InMemory(s1, g1, zs, lo, hi, k);
      LiveApart(s1, g1, zs, l, k);
      mem := CopyBytes(mem, r.value, ptr, n);
      ghost var m2 := mem;
      Release(ptr, l);
      CopyKept(s, g, s1, g1, zs, m, m1, m2, l, k, n);
      ghost var s2, g2 := S(), book;
      StillThere(s1, g1, s2, g2, l, k);
      FreeKept(s, g, s1, g1, s2, g2, m, m2, mem, l, k, n);
      MovedBoth(s, g, s1, g1, s2, g2, l, k, r.value, size);
    }

    /** rt_realloc of something that is live. */
    method Resize(ptr: nat, size: nat, ghost l: Place) returns (r: Option<nat>, ghost k: Place)
      requires Valid() && 0 < size < WORD && Live(S(), book, l) && Addr(S(), l) == ptr
      modifies this, pages
      ensures Valid()
      ensures if l.Chunk? && Len(old(S()), old(book), l) == ZoneIndex(size).1
              then r == Some(ptr) && k == l && S() == old(S()) && book == old(book) && mem == old(mem)
              else r.None? <==> MallocFails(old(S()), old(book), zs, if l.Chunk? then ZoneIndex(size).1 else size)
      ensures r.None? ==> S() == old(S()) && book == old(book) && mem == old(mem)
      ensures r.Some? ==> Moved(old(S()), old(book), S(), book, l, k, r.value, size)
      ensures r.Some? ==> Carried(old(mem), mem, ptr, r.value, Min(Len(old(S()), old(book), l), size))
      ensures r.Some? ==> OthersUntouched(old(S()), old(book), old(mem), mem, l)
    {
      ghost var s, g := S(), book;
      PageMapRight(s, g, zs, l);
      LargeHeld(s, g, zs);
      InMemory(s, g, zs, lo, hi, l);
      var p := ptr / PAGE;
      hide Inv, Bounded, OthersUntouched, ZoneIndex, Carried, Moved, Balanced, MallocFails;
      if usage[p].LargeBlock? {
        var osize := usage[p].n * PAGE;
        r, k := Move(ptr, size, if size > osize then osize else size, l);
      } else {
        var z := p - usage[p].off;
        var rounded := ZoneIndex(size).1;
        RoundedCovers(size);
        if zones[z].size == rounded {
          Stays(s, g, l, ptr, size, mem, zs, lo, hi);
          return Some(ptr), l;
        }
        var n := if rounded > zones[z].size then zones[z].size else rounded;
        r, k := Move(ptr, rounded, n, l);
        if r.Some? {
          CarriedLess(old(mem), mem, ptr, r.value, n, Min(Len(s, g, l), size));
          MovedLess(s, g, S(), book, l, k, r.value, rounded, size);
        }
      }
    }

    /** rt_realloc. */
    method Realloc(ptr: Option<nat>, size: nat, ghost l: Place) returns (r: Option<nat>, ghost k: Place)
      requires Valid() && size < WORD && (ptr.Some? ==> Live(S(), book, l) && Addr(S(), l) == ptr.value)
      modifies this, pages
      ensures Valid()
      ensures ptr.Some? && size == 0 ==>
                && r == None && Lost(old(S()), old(book), S(), book, l)
                && Gave(old(S()), old(book), S(), book, l, zs / PAGE)
                && Untouched(old(S()), old(book), S(), book, old(mem), mem)
      ensures ptr.None? ==> (r.None? <==> MallocFails(old(S()), old(book), zs, size))
      ensures ptr.Some? && size > 0 ==>
                if l.Chunk? && Len(old(S()), old(book), l) == ZoneIndex(size).1
                then r == ptr && k == l && S() == old(S()) && book == old(book) && mem == old(mem)
                else r.None? <==> MallocFails(old(S()), old(book), zs, if l.Chunk? then ZoneIndex(size).1 else size)
      ensures r.None? && (ptr.None? || size > 0) ==> S() == old(S()) && book == old(book) && mem == old(mem)
      ensures r.Some? && ptr.None? ==>
                && Gained(old(S()), old(book), S(), book, k, r.value, size)
                && Served(old(S()), old(book), S(), book, zs, size, k)
                && Untouched(old(S()), old(book), S(), book, old(mem), mem)
      ensures r.Some? && ptr.Some? ==>
        && Moved(old(S()), old(book), S(), book, l, k, r.value, size)
        && Carried(old(mem), mem, ptr.value, r.value, Min(Len(old(S()), old(book), l), size))
        && OthersUntouched(old(S()), old(book), old(mem), mem, l)
    {
      hide Inv, Bounded, OthersUntouched, Untouched, Carried, Moved, OthersLive, Balanced, MallocFails, Served, Gave,
           Live, Addr, Len, ZoneIndex, Gained, Lost;
      if ptr.None? {
        r, k := Malloc(size);
      } else if size == 0 {
        Release(ptr.value, l);
        r, k := None, l;
      } else {
        r, k := Resize(ptr.value, size, l);
      }
    }
  }

  /** `l` has become `k`, at `ptr`, with room for `n` bytes; nothing else that is live has moved. */
  ghost predicate Moved(s: State, g: Book, s': State, g': Book, l: Place, k: Place, ptr: nat, n: nat) {
    && Live(s', g', k) && Addr(s', k) == ptr && Len(s', g', k) >= n
    && (k != l ==> !Live(s', g', l) && !Live(s, g, k))
    && forall m: Place {:trigger Live(s', g', m)} {:trigger Live(s, g, m)} :: m != l && m != k ==>
         && (Live(s', g', m) <==> Live(s, g, m))
         && (Live(s, g, m) && Live(s', g', m) ==> Addr(s', m) == Addr(s, m) && Len(s', g', m) == Len(s, g, m))
  }

  /** Free pages of a new heap become a zone, which stays when its only chunk is given back. */
  method NewZoneStays(bytes: map<nat, int>) returns (h: Slab, ok: bool, ghost was: seq<Run>)
    requires forall i: nat :: i in bytes <==> PAGE <= i < 33 * PAGE
    ensures fresh(h) && h.Valid() && ok && h.pages.runs != was
  {
    assert UsagePages(32) == 1;
    hide Inv, Balanced, Bounded, ZoneIndex, UsagePages, MallocFails, NoChunk, Limit;
    h := new Slab(1, 33, bytes);
    was := h.pages.runs;
    FirstRequest(h.S(), h.book);
    ok := MallocFree(h, 1);
  }

  lemma FirstRequest(s: State, g: Book)
    requires s.zones == map[] && forall p: nat :: 2 <= p < 10 ==> Has(s.runs, p)
    ensures !MallocFails(s, g, 32768, 1) && NoChunk(s, g, ZoneIndex(1).0) && 1 < Limit(32768)
  {
    assert AllFree(s.runs, 2, 8);
    assert 32768 / PAGE == 8;
  }

  /** The bytes of everything else that was live keep their values. */
  ghost predicate OthersUntouched(s: State, g: Book, m: map<nat, int>, m': map<nat, int>, l: Place) {
    && m'.Keys == m.Keys
    && forall q: Place, i: nat {:trigger Live(s, g, q), m'[i]} ::
         q != l && Live(s, g, q) && Addr(s, q) <= i < Addr(s, q) + Len(s, g, q) && i in m ==> m'[i] == m[i]
  }

  /** rt_malloc and then rt_free of the same place. */
  method MallocFree(h: Slab, size: nat) returns (ok: bool)
    requires h.Valid() && size < WORD
    modifies h, h.pages
    ensures h.Valid() && (ok <==> !MallocFails(old(h.S()), old(h.book), h.zs, size))
    ensures ok ==> (h.pages.runs == old(h.pages.runs) <==>
                    size >= Limit(h.zs) || !NoChunk(old(h.S()), old(h.book), ZoneIndex(size).0) || old(h.spare) != [])
    ensures !ok ==> h.pages.runs == old(h.pages.runs)
  {
    hide Inv, OthersLive, Untouched, Bounded, Live, Addr, Len, Served, Gave, MallocFails, NoChunk, ZoneIndex, Owned,
         Filled, WholeLast;
    ghost var s, g := h.S(), h.book;
    var ptr, l := h.Malloc(size);
    ok := ptr.Some?;
    ghost var s1, g1 := h.S(), h.book;
    h.Free(ptr, l);
    if ok {
      RoundTrip(s, g, s1, g1, h.S(), h.book, h.zs, size, l);
    }
  }

  lemma GrabbedPages(runs: seq<Run>, runs': seq<Run>, a: nat, n: nat)
    requires Grabbed(runs, runs', a, n)
    ensures AllFree(runs, a, n) && forall p: nat :: Has(runs', p) <==> Has(runs, p) && !(a <= p < a + n)
  {
  }

  lemma FreeReturns(runs: seq<Run>, a: nat, n: nat)
    ensures Returned(runs, FreeRun(runs, a, n), a, n)
  {
    forall p: nat ensures Has(FreeRun(runs, a, n), p) <==> Has(runs, p) || a <= p < a + n {
      FreeGives(runs, a, n, p);
    }
  }

  lemma TakeChunkTook(s: State, g: Book, zs: nat, zi: nat)
    requires Inv(s, g, zs) && zi < NZONES && s.arrays[zi] != []
    ensures s.arrays[zi][0] in s.zones && s.arrays[zi][0] in g.busy && s.arrays[zi][0] in g.idx
    ensures var z := s.arrays[zi][0]; var y := s.zones[z];
            TookChunk(s, g, WithZone(s, z, TakeZone(y), TakeList(y, s.arrays[zi])), TakeBook(g, z, y), z,
                      SlotTaken(g, z, y))
  {
    HeadHasFree(s, g, zs, zi);
    var z := s.arrays[zi][0];
    var y := s.zones[z];
    TakeZoneOk(z, zs, y, g);
    FullIff(z, zs, TakeZone(y), TakeBook(g, z, y).busy[z], TakeBook(g, z, y).idx[z]);
    hide Inv, ZoneOk, Full;
    assert TakeZone(y).nmax == y.nmax;
    FullSame(TakeZone(y), y, TakeBook(g, z, y).busy[z]);
  }

  lemma TookSize(s: State, g: Book, s': State, g': Book, z: nat, i: nat, zi: nat)
    requires TookChunk(s, g, s', g', z, i) && s'.zones[z].zi == zi
    ensures zi in s.arrays && s.arrays[zi] != [] && s.arrays[zi][0] == z && s'.zones[z].size == s.zones[z].size
  {
  }

  lemma FullSame(x: Zone, y: Zone, busy: set<nat>)
    requires x.nmax == y.nmax
    ensures Full(x, busy) <==> Full(y, busy)
  {
  }

  lemma ObtainedTook(s: State, g: Book, s1: State, g1: Book, s2: State, g2: Book, z: nat, zi: nat, zp: nat)
    requires Obtained(s, g, s1, g1, z, zp) && z !in s.zones && zi in s.arrays && s.arrays[zi] == []
    requires z in s2.zones && s2.zones[z].zi == zi && s2.zones[z].uindex == 0 && s2.zones[z].chunks == []
    requires s2 == WithZone(s1, z, s2.zones[z], [z] + s1.arrays[zi])
    requires g2 == WithBook(g1, z, {0}, [])
    ensures TookZone(s, g, s2, g2, z, zi, zp)
  {
    assert [z] + s1.arrays[zi] == [z];
  }

  /** Giving a chunk back leaves the zone in place, unless it is wholly free and not the only one of its list. */
  lemma GiveChunkStays(s: State, g: Book, zs: nat, z: nat, i: nat)
    requires Inv(s, g, zs) && Live(s, g, Chunk(z, i))
    ensures z in g.idx && s.zones[z].zi in s.arrays
    ensures var y := s.zones[z];
            var s', g' := WithZone(s, z, GiveBack(y, Slot(y, i)), GiveList(y, z, s.arrays[y.zi])), GiveBook(g, z, i);
            var list := s'.arrays[y.zi];
      && Stayed(s, g, s', g', z, i) && list != []
      && (g'.busy[z] == {} && (list[|list| - 1] != z || list[0] != z) <==> Retires(s, g, z, i))
  {
    var y := s.zones[z];
    assert ZoneAt(s, g, zs, z) && IsZone(s, z) && LinkedAt(s, z, y.zi);
    AllFreeIff(z, zs, y, g.busy[z], g.idx[z]);
    var list := s.arrays[y.zi];
    var linked := GiveList(y, z, list);
    hide Inv, ZoneOk, Slot;
    assert linked == if z in list then list else [z] + list;
    assert g.busy[z] - {i} == {} <==> g.busy[z] == {i};
    OnlyOne(linked, z);
    assert (exists x :: x in list && x != z) <==> exists x :: x in linked && x != z;
  }

  lemma OnlyOne(list: seq<nat>, z: nat)
    requires Distinct(list) && z in list
    ensures (list[|list| - 1] != z || list[0] != z) <==> exists x :: x in list && x != z
  {
    DistinctIff(list);
    assert list[0] in list && list[|list| - 1] in list;
  }

  /** Giving the last chunk back and then retiring the zone. */
  lemma RetiredBoth(s: State, g: Book, s1: State, g1: Book, s2: State, g2: Book, z: nat, i: nat, zp: nat)
    requires Stayed(s, g, s1, g1, z, i) && Retired(s1, g1, s2, g2, z, zp)
    ensures Retired(s, g, s2, g2, z, zp)
  {
    var zi := s.zones[z].zi;
    if z !in s.arrays[zi] {
      assert ([z] + s.arrays[zi])[1..] == s.arrays[zi];
      WithoutAbsent(s.arrays[zi], z);
    }
  }

  lemma StillThere(s: State, g: Book, s': State, g': Book, l: Place, q: Place)
    requires OthersLive(s, g, s', g', l) && Live(s, g, q) && (Live(s, g, l) ==> q != l)
    ensures q != l && Live(s', g', q) && Addr(s', q) == Addr(s, q) && Len(s', g', q) == Len(s, g, q)
  {
  }

  lemma InMemory(s: State, g: Book, zs: nat, lo: nat, hi: nat, l: Place)
    requires Inv(s, g, zs) && ZoneSize(zs) && Bounded(g.held, s.runs, lo, hi) && Live(s, g, l)
    ensures lo * PAGE <= Addr(s, l) && Addr(s, l) + Len(s, g, l) <= hi * PAGE
  {
    LiveInside(s, g, zs, l);
  }

  /** After the copy: everything but the new place is as before the call. */
  lemma CopyKept(s: State, g: Book, s1: State, g1: Book, zs: nat, m: map<nat, int>, m1: map<nat, int>,
                 m2: map<nat, int>, l: Place, k: Place, n: nat)
    requires Inv(s1, g1, zs) && ZoneSize(zs)
    requires Live(s, g, l) && !Live(s, g, k) && Live(s1, g1, k) && OthersLive(s, g, s1, g1, k) && Live(s1, g1, l)
             && n <= Len(s1, g1, k) && n <= Len(s1, g1, l)
    requires Untouched(s, g, s1, g1, m, m1) && m2.Keys == m1.Keys
    requires forall i: nat :: Addr(s1, l) <= i < Addr(s1, l) + n ==> i in m
    requires Carried(m1, m2, Addr(s1, l), Addr(s1, k), n)
    requires forall i: nat :: i in m1 && !(Addr(s1, k) <= i < Addr(s1, k) + n) ==> m2[i] == m1[i]
    ensures Carried(m, m2, Addr(s1, l), Addr(s1, k), n) && OthersUntouched(s, g, m, m2, l)
  {
    hide Inv, OthersLive, Addr, Len, Carried, Untouched;
    assert m1.Keys == m.Keys by { SameKeys(s, g, s1, g1, m, m1); }
    forall q: Place, i: nat | q != l && Live(s, g, q) && Addr(s, q) <= i < Addr(s, q) + Len(s, g, q)
        && i in m ensures m2[i] == m[i] {
      StillThere(s, g, s1, g1, k, q);
      LiveApart(s1, g1, zs, q, k);
      ByteKept(s, g, s1, g1, m, m1, q, i);
    }
    StillThere(s, g, s1, g1, k, l);
    CopyCarried(s, g, s1, g1, m, m1, m2, l, Addr(s1, k), n);
  }

  lemma SameKeys(s: State, g: Book, s1: State, g1: Book, m: map<nat, int>, m1: map<nat, int>)
    requires Untouched(s, g, s1, g1, m, m1)
    ensures m1.Keys == m.Keys
  {
  }

  lemma ByteKept(s: State, g: Book, s1: State, g1: Book, m: map<nat, int>, m1: map<nat, int>, q: Place, i: nat)
    requires Untouched(s, g, s1, g1, m, m1) && Live(s, g, q) && Live(s1, g1, q)
             && Addr(s, q) <= i < Addr(s, q) + Len(s, g, q) && i in m
    ensures i in m1 && m1[i] == m[i]
  {
    assert i in m1;
  }

  lemma CopyCarried(s: State, g: Book, s1: State, g1: Book, m: map<nat, int>, m1: map<nat, int>, m2: map<nat, int>,
                    l: Place, b: nat, n: nat)
    requires Untouched(s, g, s1, g1, m, m1) && Live(s, g, l) && Live(s1, g1, l) && n <= Len(s, g, l)
    requires forall i: nat :: Addr(s, l) <= i < Addr(s, l) + n ==> i in m
    requires Carried(m1, m2, Addr(s, l), b, n)
    ensures Carried(m, m2, Addr(s, l), b, n)
  {
    hide Addr, Len, Untouched;
    var a := Addr(s, l);
    hide Carried;
    forall j: nat | a <= j < a + n ensures j in m && j in m1 && m1[j] == m[j] {
      ByteKept(s, g, s1, g1, m, m1, l, j);
    }
    CarriedFrom(m, m1, m2, a, b, n);
  }

  /** After giving the old place back: the copy and everything else are still there. */
  lemma FreeKept(s: State, g: Book, s1: State, g1: Book, s2: State, g2: Book, m: map<nat, int>, m2: map<nat, int>,
                 m3: map<nat, int>, l: Place, k: Place, n: nat)
    requires Live(s, g, l) && !Live(s, g, k) && Live(s1, g1, k) && OthersLive(s, g, s1, g1, k) && n <= Len(s1, g1, k)
             && k != l
    requires OthersLive(s1, g1, s2, g2, l) && Live(s1, g1, l) && !Live(s2, g2, l) && Live(s2, g2, k)
    requires Untouched(s1, g1, s2, g2, m2, m3) && Carried(m, m2, Addr(s1, l), Addr(s1, k), n)
             && OthersUntouched(s, g, m, m2, l)
    ensures Carried(m, m3, Addr(s1, l), Addr(s1, k), n) && OthersUntouched(s, g, m, m3, l)
  {
    var a, b := Addr(s1, l), Addr(s1, k);
    CarriedKeys(m, m2, a, b, n);
    SameKeys(s1, g1, s2, g2, m2, m3);
    hide OthersLive, Addr, Len, Carried, Untouched;
    forall q: Place, i: nat | q != l && Live(s, g, q) && Addr(s, q) <= i < Addr(s, q) + Len(s, g, q) && i in m
      ensures m3[i] == m[i]
    {
      StillThere(s, g, s1, g1, k, q);
      StillThere(s1, g1, s2, g2, l, q);
      assert i in m2 && m2[i] == m[i];
      ByteKept(s1, g1, s2, g2, m2, m3, q, i);
    }
    forall i: nat | b <= i < b + n ensures i in m2 && i in m3 && m3[i] == m2[i] {
      ByteKept(s1, g1, s2, g2, m2, m3, k, i);
    }
    CarriedOn(m, m2, m3, a, b, n);
  }

  lemma MovedBoth(s: State, g: Book, s1: State, g1: Book, s2: State, g2: Book, l: Place, k: Place, ptr: nat, n: nat)
    requires Gained(s, g, s1, g1, k, ptr, n) && Lost(s1, g1, s2, g2, l) && Live(s, g, l) && k != l
    ensures Moved(s, g, s2, g2, l, k, ptr, n)
  {
    forall m: Place | m != l && m != k
      ensures Live(s2, g2, m) <==> Live(s, g, m)
      ensures Live(s, g, m) && Live(s2, g2, m) ==> Addr(s2, m) == Addr(s, m) && Len(s2, g2, m) == Len(s, g, m) {
      assert Live(s1, g1, m) <==> Live(s, g, m);
      assert Live(s2, g2, m) <==> Live(s1, g1, m);
    }
    StillThere(s1, g1, s2, g2, l, k);
  }

  lemma Stays(s: State, g: Book, l: Place, ptr: nat, size: nat, m: map<nat, int>, zs: nat, lo: nat, hi: nat)
    requires Live(s, g, l) && Addr(s, l) == ptr && Len(s, g, l) >= size
    requires lo * PAGE <= ptr && ptr + Len(s, g, l) <= hi * PAGE && forall i: nat ::
               i in m <==> lo * PAGE <= i < hi * PAGE
    ensures Moved(s, g, s, g, l, l, ptr, size) && Carried(m, m, ptr, ptr, Min(Len(s, g, l), size))
            && OthersUntouched(s, g, m, m, l)
  {
  }

  lemma RoundedCovers(size: nat)
    requires 0 < size < WORD
    ensures size <= ZoneIndex(size).1 < WORD
  {
    if size < 16384 {
      ZoneIndexFits(size);
    }
  }

  lemma MovedLess(s: State, g: Book, s': State, g': Book, l: Place, k: Place, ptr: nat, n: nat, n': nat)
    requires Moved(s, g, s', g', l, k, ptr, n) && n' <= n
    ensures Moved(s, g, s', g', l, k, ptr, n')
  {
  }

  lemma ClassListed(s: State, g: Book, zs: nat, n: nat)
    requires Inv(s, g, zs) && 0 <= ZoneIndex(n).0 < NZONES
    ensures ZoneIndex(n).0 in s.arrays
  {
  }

  /** The zones in the list of a class have chunks of its size. */
  lemma HeadSize(s: State, g: Book, zs: nat, n: nat)
    requires Inv(s, g, zs) && 1 <= n < 16384 && 0 <= ZoneIndex(n).0 < NZONES && ZoneIndex(n).0 in s.arrays
             && s.arrays[ZoneIndex(n).0] != []
    ensures s.arrays[ZoneIndex(n).0][0] in s.zones && s.zones[s.arrays[ZoneIndex(n).0][0]].size == ZoneIndex(n).1 >= n
  {
    hide ZoneIndex, ChunkSize;
    HeadHasFree(s, g, zs, ZoneIndex(n).0);
    ZoneIndexFits(n);
  }

  lemma FreshClass(z: nat, zs: nat, zi: nat, size: nat)
    requires size > 0
    ensures var y := Fresh(z, zs, zi, size); y.zi == zi && y.size == size && y.uindex == 0 && y.chunks == []
  {
  }

  lemma WasNotLive(s: State, g: Book, s1: State, g1: Book, l: Place)
    requires SameLive(s, g, s1, g1) && !Live(s1, g1, l)
    ensures !Live(s, g, l)
  {
  }

  lemma OneElsewhere(usage: map<nat, Usage>, a: nat, n: nat, u: Usage)
    requires n > 0
    ensures UsageElsewhere(usage, usage[a := u], a, n)
  {
  }

  lemma LargeHeld(s: State, g: Book, zs: nat)
    requires Inv(s, g, zs)
    ensures forall p: nat :: p in g.larges ==> p in g.held
  {
  }

  lemma SameElsewhere(usage: map<nat, Usage>, a: nat, n: nat)
    ensures UsageElsewhere(usage, usage, a, n)
  {
  }

  lemma ReturnBounded(held: map<nat, nat>, runs: seq<Run>, lo: nat, hi: nat, a: nat)
    requires Bounded(held, runs, lo, hi) && a in held
    ensures Bounded(held - {a}, FreeRun(runs, a, held[a]), lo, hi)
  {
    forall p: nat | Has(FreeRun(runs, a, held[a]), p) ensures lo <= p < hi {
      FreeGives(runs, a, held[a], p);
    }
  }

  /** The page map may say anything about pages that nothing uses. */
  lemma ClearZone(s: State, g: Book, zs: nat, a: nat, usage: map<nat, Usage>)
    requires Inv(s, g, zs) && a in g.held && !IsZone(s, a) && a !in g.larges
             && UsageElsewhere(s.usage, usage, a, g.held[a])
    ensures Inv(s.(usage := usage), g, zs) && SameLive(s, g, s.(usage := usage), g)
  {
    hide ZoneOk, Mapped, Canon, UsageElsewhere;
    var s' := s.(usage := usage);
    SameZones(s, g, s', g, zs);
    forall x: nat | IsZone(s', x) ensures Mapped(usage, x, zs / PAGE) {
      assert IsZone(s, x) && ApartAt(g, x, a);
      MappedElsewhere(s.usage, usage, a, g.held[a], x, zs / PAGE);
    }
    forall p: nat | p in g.larges ensures p in usage && usage[p] == LargeBlock(g.held[p]) {
      assert ApartAt(g, p, a) && TakenAt(g, s.runs, p);
      UsageKept(s.usage, usage, a, g.held[a], p);
    }
    assert forall x: nat :: IsZone(s', x) ==> IsZone(s, x);
  }

  lemma ClearUsage(s: State, g: Book, zs: nat, a: nat, u: Usage)
    requires Inv(s, g, zs) && a in g.held && !IsZone(s, a) && a !in g.larges
    ensures Inv(s.(usage := s.usage[a := u]), g, zs) && SameLive(s, g, s.(usage := s.usage[a := u]), g)
  {
    assert TakenAt(g, s.runs, a);
    OneElsewhere(s.usage, a, g.held[a], u);
    ClearZone(s, g, zs, a, s.usage[a := u]);
  }

  lemma SpareFew(s: State, g: Book, zs: nat)
    requires Inv(s, g, zs)
    ensures |s.spare| <= 2
  {
  }

  lemma SameTrans(s: State, g: Book, s1: State, g1: Book, s2: State, g2: Book)
    requires SameLive(s, g, s1, g1) && SameLive(s1, g1, s2, g2)
    ensures SameLive(s, g, s2, g2)
  {
    forall m: Place
      ensures Live(s2, g2, m) <==> Live(s, g, m)
      ensures Live(s, g, m) && Live(s2, g2, m) ==> Addr(s2, m) == Addr(s, m) && Len(s2, g2, m) == Len(s, g, m) {
      assert Live(s1, g1, m) <==> Live(s, g, m);
      assert Live(s2, g2, m) <==> Live(s1, g1, m);
    }
  }

  lemma SameSym(s: State, g: Book, s1: State, g1: Book)
    requires SameLive(s, g, s1, g1)
    ensures SameLive(s1, g1, s, g)
  {
  }

  /** The loop that takes a zone out of the page map. */
  method UnmapZone(usage: map<nat, Usage>, z: nat, zp: nat) returns (r: map<nat, Usage>)
    ensures UsageElsewhere(usage, r, z, zp)
    ensures forall p: nat :: z <= p < z + zp ==> p in r && r[p] == Unused
  {
    r := usage;
    var i := 0;
    while i < zp
      invariant 0 <= i <= zp && UsageElsewhere(usage, r, z, zp)
      invariant forall p: nat :: z <= p < z + i ==> p in r && r[p] == Unused
    {
      r := r[z + i := Unused];
      i := i + 1;
    }
  }

  lemma SameLiveRefl(s: State, g: Book)
    ensures SameLive(s, g, s, g)
  {
  }

  lemma GrabBounded(held: map<nat, nat>, runs: seq<Run>, runs': seq<Run>, lo: nat, hi: nat, a: nat, n: nat)
    requires Bounded(held, runs, lo, hi) && AllFree(runs, a, n) && n > 0
    requires forall p: nat :: Has(runs', p) ==> Has(runs, p)
    ensures Bounded(held[a := n], runs', lo, hi)
  {
    assert Has(runs, a) && Has(runs, a + n - 1);
  }

  /** The loop that enters a zone in the page map. */
  method MapZone(usage: map<nat, Usage>, z: nat, zp: nat) returns (r: map<nat, Usage>)
    ensures Mapped(r, z, zp) && UsageElsewhere(usage, r, z, zp)
  {
    r := usage;
    var off := 0;
    while off < zp
      invariant 0 <= off <= zp && Mapped(r, z, off) && UsageElsewhere(usage, r, z, zp)
    {
      r := r[z + off := InZone(off)];
      off := off + 1;
    }
  }
}
