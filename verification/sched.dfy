/** Finding the first bit set (`__rt_ffs` and its table in src/kservice.c). */
module FirstBit {

  function Bit8(k: bv8): (b: bv8)
    requires k < 8
  {
    1 << k
  }

  function Bit32(k: bv8): (b: bv32)
    requires k < 32
  {
    1 << k
  }

  predicate Has8(w: bv8, k: bv8)
    requires k < 8
  {
    w & Bit8(k) != 0
  }

  predicate Has32(w: bv32, k: bv8)
    requires k < 32
  {
    w & Bit32(k) != 0
  }

  /** One row of `__lowest_bit_bitmap`: the rows differ in their first entry only. */
  function Row(first: bv8): (r: seq<bv8>)
    ensures |r| == 16
  {
    [first, 0, 1, 0, 2, 0, 1, 0, 3, 0, 1, 0, 2, 0, 1, 0]
  }

  /** `__lowest_bit_bitmap`. */
  function Table(): (r: seq<bv8>)
    ensures |r| == 256
  {
    Row(0) + Row(4) + Row(5) + Row(4) + Row(6) + Row(4) + Row(5) + Row(4)
    + Row(7) + Row(4) + Row(5) + Row(4) + Row(6) + Row(4) + Row(5) + Row(4)
  }

  function LowestBit(b: bv8): (k: bv8) {
    Table()[b as nat]
  }

  /** What the table says of a byte whose lower half is 0, by its upper half. */
  function ByRow(row: bv8): (k: bv8) {
    if row == 0 then 0
    else if row == 8 then 7
    else if row == 4 || row == 12 then 6
    else if row & 3 == 2 then 5
    else 4
  }

  /** What it says of any other byte, by its lower half. */
  function ByColumn(column: bv8): (k: bv8) {
    if column == 8 then 3
    else if column == 4 || column == 12 then 2
    else if column & 3 == 2 then 1
    else 0
  }

  lemma Halves(b: bv8)
    ensures b as nat == 16 * ((b >> 4) as nat) + ((b & 15) as nat)
  {
  }

  lemma Sixteen(b: bv8)
    requires b < 16
    ensures (b as nat) < 16
    ensures b as nat == 0 <==> b == 0
    ensures b as nat == 1 <==> b == 1
    ensures b as nat == 2 <==> b == 2
    ensures b as nat == 3 <==> b == 3
    ensures b as nat == 4 <==> b == 4
    ensures b as nat == 5 <==> b == 5
    ensures b as nat == 6 <==> b == 6
    ensures b as nat == 7 <==> b == 7
    ensures b as nat == 8 <==> b == 8
    ensures b as nat == 9 <==> b == 9
    ensures b as nat == 10 <==> b == 10
    ensures b as nat == 11 <==> b == 11
    ensures b as nat == 12 <==> b == 12
    ensures b as nat == 13 <==> b == 13
    ensures b as nat == 14 <==> b == 14
    ensures b as nat == 15 <==> b == 15
  {
  }

  lemma RowEntry(first: bv8, c: bv8)
    requires c < 16
    ensures (c as nat) < 16 && Row(first)[c as nat] == if c == 0 then first else ByColumn(c)
  {
    Sixteen(c);
  }

  lemma TableRow(i: bv8, c: nat)
    requires i < 16 && c < 16
    ensures (i as nat) < 16 && Table()[16 * (i as nat) + c] == Row(ByRow(i))[c]
  {
    hide Row;
    Sixteen(i);
  }

  lemma TableEntry(b: bv8)
    ensures LowestBit(b) == if b & 15 == 0 then ByRow(b >> 4) else ByColumn(b & 15)
  {
    hide Row, Table, ByRow, ByColumn;
    Halves(b);
    Sixteen(b & 15);
    TableRow(b >> 4, (b & 15) as nat);
    RowEntry(ByRow(b >> 4), b & 15);
  }

  lemma LowestBitRight(b: bv8, k: bv8)
    requires b != 0
    ensures LowestBit(b) < 8 && Has8(b, LowestBit(b))
    ensures k < LowestBit(b) ==> !Has8(b, k)
  {
    hide LowestBit;
    TableEntry(b);
  }

  /** `__rt_ffs`: bits are numbered from 1, and 0 stands for no bit. */
  function Ffs(value: bv32): (k: bv8) {
    if value == 0 then 0
    else if value & 0xFF != 0 then LowestBit((value & 0xFF) as bv8) + 1
    else if value & 0xFF00 != 0 then LowestBit(((value & 0xFF00) >> 8) as bv8) + 9
    else if value & 0xFF0000 != 0 then LowestBit(((value & 0xFF0000) >> 16) as bv8) + 17
    else LowestBit(((value & 0xFF000000) >> 24) as bv8) + 25
  }

  lemma FfsRight(value: bv32, k: bv8)
    requires value != 0
    ensures 1 <= Ffs(value) <= 32 && Has32(value, Ffs(value) - 1)
    ensures k < Ffs(value) - 1 ==> !Has32(value, k)
  {
    hide LowestBit;
    TableEntry((value & 0xFF) as bv8);
    TableEntry(((value & 0xFF00) >> 8) as bv8);
    TableEntry(((value & 0xFF0000) >> 16) as bv8);
    TableEntry(((value & 0xFF000000) >> 24) as bv8);
  }

  function Or8(w: bv8, mask: bv8): (r: bv8) {
    w | mask
  }

  function AndNot8(w: bv8, mask: bv8): (r: bv8) {
    w & !mask
  }

  function Or32(w: bv32, mask: bv32): (r: bv32) {
    w | mask
  }

  function AndNot32(w: bv32, mask: bv32): (r: bv32) {
    w & !mask
  }

  function Mark8(w: bv8, k: bv8): (r: bv8)
    requires k < 8
  {
    Or8(w, Bit8(k))
  }

  function Unmark8(w: bv8, k: bv8): (r: bv8)
    requires k < 8
  {
    AndNot8(w, Bit8(k))
  }

  function Mark32(w: bv32, k: bv8): (r: bv32)
    requires k < 32
  {
    Or32(w, Bit32(k))
  }

  function Unmark32(w: bv32, k: bv8): (r: bv32)
    requires k < 32
  {
    AndNot32(w, Bit32(k))
  }

  lemma Marked8(w: bv8, j: bv8, k: bv8)
    requires j < 8 && k < 8
    ensures Has8(Mark8(w, j), k) <==> j == k || Has8(w, k)
    ensures Mark8(w, j) != 0
  {
  }

  lemma Unmarked8(w: bv8, j: bv8, k: bv8)
    requires j < 8 && k < 8
    ensures Has8(Unmark8(w, j), k) <==> j != k && Has8(w, k)
    ensures w == 0 ==> Unmark8(w, j) == 0
  {
  }

  lemma BitsApart(j: bv8, k: bv8)
    requires j < 32 && k < 32 && j != k
    ensures Bit32(j) & Bit32(k) == 0
  {
  }

  lemma OtherSet(w: bv32, a: bv32, b: bv32)
    requires a & b == 0
    ensures (w | a) & b == w & b
  {
    assert (w | a) & b == (w & b) | (a & b);
  }

  lemma OtherCleared(w: bv32, a: bv32, b: bv32)
    requires a & b == 0
    ensures (w & !a) & b == w & b
  {
    assert (w & !a) & b == (w & b) & !(a & b);
  }

  lemma MarkedOther(w: bv32, j: bv8, k: bv8)
    requires j < 32 && k < 32 && j != k
    ensures Has32(Mark32(w, j), k) <==> Has32(w, k)
  {
    BitsApart(j, k);
    OtherSet(w, Bit32(j), Bit32(k));
  }

  lemma MarkedSame(w: bv32, k: bv8)
    requires k < 32
    ensures Has32(Mark32(w, k), k) && !Has32(Unmark32(w, k), k)
  {
  }

  lemma UnmarkedOther(w: bv32, j: bv8, k: bv8)
    requires j < 32 && k < 32 && j != k
    ensures Has32(Unmark32(w, j), k) <==> Has32(w, k)
  {
    BitsApart(j, k);
    OtherCleared(w, Bit32(j), Bit32(k));
  }

  lemma Marks32(w: bv32, j: bv8, k: bv8)
    requires j < 32 && k < 32
    ensures Has32(Mark32(w, j), k) <==> j == k || Has32(w, k)
    ensures Has32(Unmark32(w, j), k) <==> j != k && Has32(w, k)
  {
    hide Has32, Mark32, Unmark32;
    if j == k {
      MarkedSame(w, k);
    } else {
      MarkedOther(w, j, k);
      UnmarkedOther(w, j, k);
    }
  }

  lemma Zero8(k: bv8)
    requires k < 8
    ensures !Has8(0, k)
  {
  }

  lemma Zero32(k: bv8)
    requires k < 32
    ensures !Has32(0, k)
  {
  }
}

/** The lists of ready threads and the two-level bitmap over them (src/scheduler.c, with 256 priorities). */
module ReadyLists {
  import opened FirstBit
  import opened Lists

  /** The upper five bits of a priority select a byte of the table, the lower three a bit in it. */
  function Number(p: bv8): (n: bv8)
    ensures n < 32
  {
    p >> 3
  }

  function Low(p: bv8): (k: bv8)
    ensures k < 8
  {
    p & 7
  }

  lemma NumberLow(p: bv8, q: bv8)
    ensures p == q <==> Number(p) == Number(q) && Low(p) == Low(q)
    ensures p < q ==> Number(p) < Number(q) || (Number(p) == Number(q) && Low(p) < Low(q))
  {
  }

  /** The priority from its two parts, the lower one numbered from 1. */
  function Join(n: bv8, k: bv8): (p: bv8) {
    (n << 3) + k - 1
  }

  lemma Joined(n: bv8, k: bv8)
    requires n < 32 && 1 <= k <= 8
    ensures Number(Join(n, k)) == n && Low(Join(n, k)) == k - 1
  {
  }

  /** Index of a table. */
  datatype Index = Index(v: bv8)

  datatype Ready = Ready(group: bv32, table: map<Index, bv8>, lists: map<Index, seq<nat>>) {
    function Byte(n: bv8): (b: bv8) {
      if Index(n) in table then table[Index(n)] else 0
    }

    function List(p: bv8): (l: seq<nat>) {
      if Index(p) in lists then lists[Index(p)] else []
    }

    /** A byte of the table is marked in the group iff it is not 0. */
    ghost predicate GroupAt(n: bv8) {
      n < 32 ==> (Has32(group, n) <==> Byte(n) != 0)
    }

    /** A priority is marked in the table iff its list is not empty. */
    ghost predicate TableAt(p: bv8) {
      Has8(Byte(Number(p)), Low(p)) <==> List(p) != []
    }

    ghost predicate Indexed() {
      && (forall n: bv8 {:trigger GroupAt(n)} :: GroupAt(n))
      && (forall p: bv8 {:trigger TableAt(p)} :: TableAt(p))
    }

    function Insert(t: nat, p: bv8): (r: Ready) {
      var n := Number(p);
      Ready(Mark32(group, n), table[Index(n) := Mark8(Byte(n), Low(p))], lists[Index(p) := List(p) + [t]])
    }

    function Remove(t: nat, p: bv8): (r: Ready) {
      var n, list := Number(p), Without(List(p), t);
      if list != [] then this.(lists := lists[Index(p) := list])
      else
        var byte := Unmark8(Byte(n), Low(p));
        Ready(if byte == 0 then Unmark32(group, n) else group, table[Index(n) := byte], lists[Index(p) := list])
    }
  }

  /** `rt_list_remove` of a thread, from whatever list it is in: the bitmap is left alone. */
  function Detached(r: Ready, t: nat): (s: Ready) {
    r.(lists := map i | i in r.lists :: Without(r.lists[i], t))
  }

  lemma InsertIndexed(r: Ready, t: nat, p: bv8)
    requires r.Indexed()
    ensures r.Insert(t, p).Indexed()
  {
    hide Has8, Has32, Mark8, Unmark8, Mark32, Unmark32, Number, Low;
    var s := r.Insert(t, p);
    forall n: bv8 ensures s.GroupAt(n) {
      assert r.GroupAt(n);
      if n < 32 {
        Marks32(r.group, Number(p), n);
        Marked8(r.Byte(Number(p)), Low(p), 0);
      }
    }
    forall q: bv8 ensures s.TableAt(q) {
      assert r.TableAt(q);
      NumberLow(p, q);
      Marked8(r.Byte(Number(p)), Low(p), Low(q));
    }
  }

  lemma RemoveIndexed(r: Ready, t: nat, p: bv8)
    requires r.Indexed()
    ensures r.Remove(t, p).Indexed()
  {
    hide Has8, Has32, Mark8, Unmark8, Mark32, Unmark32, Number, Low;
    var s := r.Remove(t, p);
    forall n: bv8 ensures s.GroupAt(n) {
      assert r.GroupAt(n);
      if n < 32 {
        Marks32(r.group, Number(p), n);
        Unmarked8(r.Byte(Number(p)), Low(p), 0);
      }
    }
    forall q: bv8 ensures s.TableAt(q) {
      assert r.TableAt(q);
      NumberLow(p, q);
      Unmarked8(r.Byte(Number(p)), Low(p), Low(q));
    }
  }

  /** `_get_highest_priority_thread` looks the priority up in the bitmap. */
  function Highest(r: Ready): (p: bv8) {
    var number := Ffs(r.group) - 1;
    Join(number, FfsOf(r.Byte(number)))
  }

  function FfsOf(b: bv8): (k: bv8) {
    Ffs(b as bv32)
  }

  lemma FfsByte(b: bv8, k: bv8)
    requires b != 0 && k < 8
    ensures 1 <= FfsOf(b) <= 8 && Has8(b, FfsOf(b) - 1)
    ensures k < FfsOf(b) - 1 ==> !Has8(b, k)
  {
    hide LowestBit;
    TableEntry(b);
    assert (b as bv32 & 0xFF) as bv8 == b;
  }

  /** The lookup finds the most urgent list that is not empty. */
  lemma HighestRight(r: Ready, q: bv8)
    requires r.Indexed() && r.group != 0
    ensures r.List(Highest(r)) != []
    ensures q < Highest(r) ==> r.List(q) == []
  {
    hide Has8, Has32, Number, Low, Ffs, FfsOf, Join;
    var n := Ffs(r.group) - 1;
    FfsRight(r.group, 0);
    assert r.GroupAt(n);
    var k, p := FfsOf(r.Byte(n)), Highest(r);
    FfsByte(r.Byte(n), 0);
    Joined(n, k);
    assert r.TableAt(p);
    if q < p {
      NumberLow(q, p);
      assert r.TableAt(q) && r.GroupAt(Number(q));
      FfsRight(r.group, Number(q));
      FfsByte(r.Byte(n), Low(q));
      Zero8(Low(q));
    }
  }

  /** No list has anything exactly when the group is 0. */
  lemma NothingReady(r: Ready, q: bv8)
    requires r.Indexed() && r.group == 0
    ensures r.List(q) == []
  {
    hide Has8, Has32, Mark8, Unmark8, Mark32, Unmark32, Number, Low;
    assert r.GroupAt(Number(q)) && r.TableAt(q);
    Zero32(Number(q));
    Zero8(Low(q));
  }
}

/** Threads and the scheduler on one processor (src/scheduler.c, src/thread.c). */
module SchedulerModel {
  import opened FirstBit
  import opened ReadyLists
  import opened Lists
  import opened Options

  datatype Stat = Initial | Waiting | Listed | Running | Closed

  datatype Thread = Thread(initPrio: bv8, prio: bv8, number: bv8, numberMask: bv32, highMask: bv8, stat: Stat) {
    /** The masks are those of the current priority. */
    predicate Masked() {
      number == Number(prio) && numberMask == Bit32(Number(prio)) && highMask == Bit8(Low(prio))
    }

    /** "Recalculate priority attribute". */
    function WithPrio(p: bv8): (t: Thread)
      ensures t.Masked() && t.prio == p && t.stat == stat && t.initPrio == initPrio
    {
      this.(prio := p, number := Number(p), numberMask := Bit32(Number(p)), highMask := Bit8(Low(p)))
    }
  }

  type Threads = map<nat, Thread>

  /** A thread is in the list of its priority if it is ready, and in no other. */
  ghost predicate Home(r: Ready, threads: Threads, t: nat) {
    forall p: bv8 {:trigger r.List(p)} ::
          t in r.List(p) <==> t in threads && threads[t].stat == Listed && threads[t].prio == p
  }

  ghost predicate Once(r: Ready, p: bv8) {
    Distinct(r.List(p))
  }

  ghost predicate Consistent(r: Ready, threads: Threads) {
    && r.Indexed()
    && (forall p: bv8 {:trigger Once(r, p)} :: Once(r, p))
    && (forall t: nat {:trigger Home(r, threads, t)} :: Home(r, threads, t))
    && (forall t :: t in threads && threads[t].stat != Initial ==> threads[t].Masked())
  }

  /** Only the current thread runs, and it is in no list. */
  ghost predicate OneRuns(threads: Threads, current: Option<nat>) {
    && (forall t :: t in threads && threads[t].stat == Running ==> current == Some(t))
    && (current.Some? ==>
        current.value in threads && threads[current.value].stat != Initial && threads[current.value].stat != Listed)
  }

  lemma InsertLists(r: Ready, t: nat, p: bv8, q: bv8)
    ensures r.Insert(t, p).List(q) == if q == p then r.List(q) + [t] else r.List(q)
  {
    hide Mark32, Mark8;
  }

  lemma RemoveLists(r: Ready, t: nat, p: bv8, q: bv8)
    ensures r.Remove(t, p).List(q) == if q == p then Without(r.List(q), t) else r.List(q)
  {
    hide Unmark32, Unmark8;
  }

  lemma InsertConsistent(r: Ready, threads: Threads, t: nat)
    requires Consistent(r, threads) && t in threads && threads[t].stat != Listed && threads[t].Masked()
    ensures Consistent(r.Insert(t, threads[t].prio), threads[t := threads[t].(stat := Listed)])
  {
    hide r.Insert, r.List, r.Indexed, Distinct;
    var p := threads[t].prio;
    var s, threads' := r.Insert(t, p), threads[t := threads[t].(stat := Listed)];
    InsertIndexed(r, t, p);
    forall q: bv8 ensures s.List(q) == if q == p then r.List(q) + [t] else r.List(q) {
      InsertLists(r, t, p, q);
    }
    forall q: bv8 ensures Once(s, q) {
      assert Once(r, q) && Home(r, threads, t);
      if q == p {
        assert r.List(p) + [] == r.List(p) && r.List(p) + [t] == r.List(p) + [t] + [];
        InsertDistinct(r.List(p), [], t);
      }
    }
    forall u: nat ensures Home(s, threads', u) {
      assert Home(r, threads, u);
    }
  }

  lemma RemoveConsistent(r: Ready, threads: Threads, t: nat, stat: Stat)
    requires Consistent(r, threads) && t in threads && stat != Listed && threads[t].Masked()
    ensures Consistent(r.Remove(t, threads[t].prio), threads[t := threads[t].(stat := stat)])
  {
    hide r.Remove, r.List, r.Indexed, Distinct;
    var p := threads[t].prio;
    var s, threads' := r.Remove(t, p), threads[t := threads[t].(stat := stat)];
    RemoveIndexed(r, t, p);
    forall q: bv8 ensures s.List(q) == if q == p then Without(r.List(q), t) else r.List(q) {
      RemoveLists(r, t, p, q);
    }
    forall q: bv8 ensures Once(s, q) {
      assert Once(r, q);
      WithoutDistinct(r.List(q), t);
    }
    forall u: nat ensures Home(s, threads', u) {
      assert Home(r, threads, u);
    }
  }

  lemma DetachedLists(r: Ready, t: nat, q: bv8)
    ensures Detached(r, t).List(q) == Without(r.List(q), t)
  {
  }

  /** The first section of rt_thread_resume keeps the lists right if and only if the thread is in none of
      them: if nobody has resumed it since its status was looked at. */
  lemma DetachIff(r: Ready, threads: Threads, t: nat)
    requires Consistent(r, threads) && t in threads
    ensures Consistent(Detached(r, t), threads) <==> threads[t].stat != Listed
    ensures threads[t].stat != Listed ==> SameLists(r, Detached(r, t))
  {
    assert Home(r, threads, t);
    hide r.List, Distinct, Has8, Has32;
    var s := Detached(r, t);
    DetachedLists(r, t, threads[t].prio);
    if threads[t].stat == Listed {
      assert !Home(s, threads, t);
    } else {
      forall q: bv8 ensures s.List(q) == r.List(q) {
        DetachedLists(r, t, q);
        WithoutAbsent(r.List(q), t);
      }
      SameConsistent(r, s, threads);
    }
  }

  lemma SameConsistent(r: Ready, s: Ready, threads: Threads)
    requires Consistent(r, threads) && SameLists(r, s) && s == r.(lists := s.lists)
    ensures Consistent(s, threads)
  {
    hide r.List, Distinct, Has8, Has32;
    forall n: bv8 ensures s.GroupAt(n) {
      assert r.GroupAt(n);
    }
    forall p: bv8 ensures s.TableAt(p) && Once(s, p) {
      assert r.TableAt(p) && Once(r, p);
    }
    forall t: nat ensures Home(s, threads, t) {
      assert Home(r, threads, t);
    }
  }

  /** The second section of rt_thread_resume keeps the lists right if and only if the thread is in none of
      them: if nobody has resumed it since the first section. */
  lemma AttachIff(r: Ready, threads: Threads, t: nat)
    requires Consistent(r, threads) && t in threads && threads[t].Masked()
    ensures Consistent(r.Insert(t, threads[t].prio), threads[t := threads[t].(stat := Listed)]) <==>
            threads[t].stat != Listed
  {
    var p := threads[t].prio;
    if threads[t].stat == Listed {
      assert Home(r, threads, t);
      hide r.List, r.Insert, Distinct, Has8, Has32;
      InsertLists(r, t, p, p);
      TwiceIn(r.List(p), t);
      assert !Once(r.Insert(t, p), p);
    } else {
      InsertConsistent(r, threads, t);
    }
  }

  /** Two threads resume the same thread, and both are past their first section: it is listed twice. */
  lemma SecondResume(r: Ready, threads: Threads, t: nat)
    requires Consistent(r, threads) && t in threads && threads[t].stat == Waiting && threads[t].Masked()
    ensures var p := threads[t].prio;
            !Consistent(r.Insert(t, p).Insert(t, p), threads[t := threads[t].(stat := Listed)])
  {
    hide r.Insert, Consistent, Bit8, Bit32, Number, Low;
    var threads' := threads[t := threads[t].(stat := Listed)];
    InsertConsistent(r, threads, t);
    AttachIff(r.Insert(t, threads[t].prio), threads', t);
    assert threads'[t := threads'[t].(stat := Listed)] == threads';
  }

  lemma {:induction false} TwiceIn(s: seq<nat>, t: nat)
    requires t in s
    ensures !Distinct(s + [t])
  {
    assert (s + [t])[1..] == s[1..] + [t];
    if t in s[1..] {
      TwiceIn(s[1..], t);
    }
  }

  /** Changes to a thread that is in no list, before and after. */
  lemma OtherConsistent(r: Ready, threads: Threads, t: nat, th: Thread)
    requires Consistent(r, threads) && t in threads && threads[t].stat != Listed && th.stat != Listed
             && (th.stat == Initial || th.Masked())
    ensures Consistent(r, threads[t := th])
  {
    var threads' := threads[t := th];
    forall u: nat ensures Home(r, threads', u) {
      assert Home(r, threads, u);
    }
  }

  /** The comparison of rt_schedule. */
  predicate Precedes(p: bv8, q: bv8) {
    p < q
  }

  /** No ready thread is more urgent than `p`: lower numbers are more urgent. */
  ghost predicate MostUrgent(threads: Threads, p: bv8) {
    forall t :: t in threads && threads[t].stat == Listed ==> p <= threads[t].prio
  }

  /** The thread is more urgent than every thread that is ready. */
  ghost predicate Ahead(threads: Threads, from: nat)
    requires from in threads
  {
    forall t :: t in threads && threads[t].stat == Listed ==> threads[from].prio < threads[t].prio
  }

  /** What the comparisons of rt_schedule establish. */
  ghost predicate Unbeaten(threads: Threads, p: bv8) {
    forall t :: t in threads && threads[t].stat == Listed ==> !Precedes(threads[t].prio, p)
  }

  lemma UnbeatenIff(threads: Threads, p: bv8)
    ensures Unbeaten(threads, p) <==> MostUrgent(threads, p)
  {
  }

  lemma HighestUrgent(r: Ready, threads: Threads)
    requires Consistent(r, threads) && r.group != 0
    ensures Unbeaten(threads, Highest(r)) && r.List(Highest(r)) != []
    ensures forall t ::
              t in r.List(Highest(r)) ==> t in threads && threads[t].stat == Listed && threads[t].prio == Highest(r)
  {
    hide r.List, Highest;
    var p := Highest(r);
    HighestRight(r, p);
    forall t | t in threads && threads[t].stat == Listed ensures !Precedes(threads[t].prio, p) {
      assert Home(r, threads, t) && t in r.List(threads[t].prio);
      HighestRight(r, threads[t].prio);
    }
    forall t | t in r.List(p) ensures t in threads && threads[t].stat == Listed && threads[t].prio == p {
      assert Home(r, threads, t);
    }
  }

  lemma NobodyReady(r: Ready, threads: Threads)
    requires Consistent(r, threads) && r.group == 0
    ensures forall t :: t in threads ==> threads[t].stat != Listed
  {
    forall t | t in threads ensures threads[t].stat != Listed {
      assert Home(r, threads, t);
      NothingReady(r, threads[t].prio);
    }
  }

  lemma UrgentBelow(threads: Threads, q: bv8, p: bv8)
    requires Unbeaten(threads, p) && Precedes(q, p)
    ensures Unbeaten(threads, q)
  {
  }

  lemma AheadIff(r: Ready, threads: Threads, from: nat)
    requires Consistent(r, threads) && r.group != 0 && from in threads
    ensures Ahead(threads, from) <==> Precedes(threads[from].prio, Highest(r))
  {
    hide Consistent, r.List, Highest;
    HighestUrgent(r, threads);
    var to := r.List(Highest(r))[0];
    assert to in r.List(Highest(r));
    assert threads[to].prio == Highest(r) && threads[to].stat == Listed;
  }

  lemma NobodyAhead(r: Ready, threads: Threads, from: nat)
    requires Consistent(r, threads) && r.group == 0 && from in threads
    ensures Ahead(threads, from)
  {
    NobodyReady(r, threads);
  }

  lemma IdleUrgent(r: Ready, threads: Threads, p: bv8)
    requires Consistent(r, threads) && r.group == 0
    ensures Unbeaten(threads, p)
  {
    NobodyReady(r, threads);
  }

  lemma EmptyConsistent(threads: Threads)
    requires forall t :: t in threads ==> threads[t].stat == Initial
    ensures Consistent(Ready(0, map[], map[]), threads)
  {
    hide Has8, Has32;
    var r := Ready(0, map[], map[]);
    forall n: bv8 ensures r.GroupAt(n) {
      if n < 32 {
        Zero32(n);
      }
    }
    forall p: bv8 ensures r.TableAt(p) {
      Zero8(Low(p));
    }
    assert forall p: bv8 :: Once(r, p);
    forall t: nat ensures Home(r, threads, t) {
    }
  }

  /** The lists after a switch away from `from`: the first thread of list `p` has left, and a thread that
      was running is at the end of its list. */
  ghost predicate Turned(r: Ready, r': Ready, p: bv8, runs: bool, from: nat, own: bv8) {
    && r.List(p) != []
    && forall q: bv8 {:trigger r'.List(q)} ::
         r'.List(q) == (if q == p then r.List(p)[1..] else r.List(q)) + if runs && q == own then [from] else []
  }

  ghost predicate SameLists(r: Ready, r': Ready) {
    forall q: bv8 {:trigger r'.List(q)} :: r'.List(q) == r.List(q)
  }

  /** What rt_schedule does when there is a ready thread: a running thread that is more urgent goes
      on; else the first thread of the most urgent list runs. */
  ghost predicate Switched(r: Ready, threads: Threads, from: nat, r': Ready, threads': Threads, current: Option<nat>)
    requires from in threads
  {
    var p, th := Highest(r), threads[from];
    if th.stat == Running && Ahead(threads, from) then
      current == Some(from) && threads' == threads && SameLists(r, r')
    else
      && Turned(r, r', p, th.stat == Running, from, th.prio)
      && var to := r.List(p)[0];
      && current == Some(to) && to in threads
      && threads' == Handed(threads, from, to)
  }

  function Handed(threads: Threads, from: nat, to: nat): (t: Threads)
    requires from in threads && to in threads
  {
    (if threads[from].stat == Running then threads[from := threads[from].(stat := Listed)]
     else threads)[to := threads[to].(stat := Running)]
  }

  lemma StayConsistent(r: Ready, threads: Threads, from: nat)
    requires Consistent(r, threads) && from in threads && threads[from].stat == Running
    ensures Consistent(r.Remove(from, threads[from].prio), threads) && SameLists(r, r.Remove(from, threads[from].prio))
  {
    hide r.Remove, r.List, r.Indexed, Distinct;
    RemoveConsistent(r, threads, from, Running);
    assert threads[from := threads[from].(stat := Running)] == threads;
    forall q: bv8 ensures r.Remove(from, threads[from].prio).List(q) == r.List(q) {
      RemoveLists(r, from, threads[from].prio, q);
      assert Home(r, threads, from);
      WithoutAbsent(r.List(q), from);
    }
  }

  /** The lists in the middle of a switch. */
  function Requeued(r: Ready, threads: Threads, from: nat): (s: Ready)
    requires from in threads
  {
    if threads[from].stat == Running then r.Insert(from, threads[from].prio) else r
  }

  lemma SwitchListAt(r: Ready, runs: bool, from: nat, own: bv8, to: nat, p: bv8, q: bv8)
    requires r.List(p) != [] && to == r.List(p)[0] && Distinct(r.List(p)) && from !in r.List(p)
    ensures var s := if runs then r.Insert(from, own) else r;
            s.Remove(to, p).List(q) ==
              (if q == p then r.List(p)[1..] else r.List(q)) + if runs && q == own then [from] else []
  {
    hide r.Remove, r.List, r.Insert;
    var s := if runs then r.Insert(from, own) else r;
    RemoveLists(s, to, p, q);
    if runs {
      InsertLists(r, from, own, q);
    }
    WithoutHead(r.List(p));
    WithoutHeadThen(r.List(p), from);
  }

  lemma SwitchLists(r: Ready, threads: Threads, from: nat, to: nat, p: bv8)
    requires Consistent(r, threads) && from in threads && threads[from].stat != Listed
    requires r.List(p) != [] && to == r.List(p)[0]
    ensures Turned(r, Requeued(r, threads, from).Remove(to, p), p, threads[from].stat == Running, from,
                   threads[from].prio)
  {
    assert Home(r, threads, from) && Once(r, p);
    hide r.Remove, r.List, r.Insert, Consistent, Distinct;
    var runs, own := threads[from].stat == Running, threads[from].prio;
    forall q: bv8 ensures Requeued(r, threads, from).Remove(to, p).List(q) ==
        (if q == p then r.List(p)[1..] else r.List(q)) + if runs && q == own then [from] else [] {
      SwitchListAt(r, runs, from, own, to, p, q);
    }
  }

  lemma WithoutHeadThen(s: seq<nat>, t: nat)
    requires s != [] && Distinct(s)
    ensures t !in s ==> Without(s + [t], s[0]) == s[1..] + [t]
  {
    if t !in s {
      assert s + [] == s && s + [t] == s + [t] + [] && (s + [t])[1..] == s[1..] + [t];
      InsertDistinct(s, [], t);
      WithoutHead(s + [t]);
    }
  }

  lemma SwitchConsistent(r: Ready, threads: Threads, from: nat, to: nat, p: bv8)
    requires Consistent(r, threads) && from in threads && threads[from].stat != Initial && threads[from].stat != Listed
    requires r.List(p) != [] && to == r.List(p)[0]
    ensures to in threads && threads[to].Masked() && threads[to].prio == p && threads[to].stat == Listed
            && threads[from].Masked()
    ensures Consistent(Requeued(r, threads, from).Remove(to, p), Handed(threads, from, to))
  {
    hide r.Remove, r.List, r.Insert, Consistent, Bit8, Bit32, Number, Low;
    ListedFacts(r, threads, to, p);
    MaskedIf(r, threads, from);
    if threads[from].stat == Running {
      InsertConsistent(r, threads, from);
      RemoveConsistent(Requeued(r, threads, from), threads[from := threads[from].(stat := Listed)], to, Running);
    } else {
      RemoveConsistent(r, threads, to, Running);
    }
  }

  lemma SwitchUrgent(threads: Threads, from: nat, to: nat, p: bv8)
    requires OneRuns(threads, Some(from)) && Unbeaten(threads, p) && to in threads && threads[to].stat == Listed
    requires threads[from].stat == Running ==> !Precedes(threads[from].prio, p)
    ensures OneRuns(Handed(threads, from, to), Some(to)) && Unbeaten(Handed(threads, from, to), p)
  {
    hide Precedes;
  }

  lemma MaskedIf(r: Ready, threads: Threads, t: nat)
    requires Consistent(r, threads) && t in threads && threads[t].stat != Initial
    ensures threads[t].Masked()
  {
  }

  lemma HeadNot(r: Ready, threads: Threads, from: nat, to: nat, p: bv8)
    requires Consistent(r, threads) && from in threads && threads[from].stat != Listed && to in r.List(p)
    ensures from != to
  {
    ListedFacts(r, threads, to, p);
  }

  lemma ListedFacts(r: Ready, threads: Threads, t: nat, p: bv8)
    requires Consistent(r, threads) && t in r.List(p)
    ensures t in threads && threads[t].stat == Listed && threads[t].prio == p && threads[t].Masked()
  {
    assert Home(r, threads, t);
  }

  /** Every list without `t`. */
  ghost predicate Dropped(r: Ready, r': Ready, t: nat) {
    forall q: bv8 {:trigger r'.List(q)} :: r'.List(q) == Without(r.List(q), t)
  }

  /** Every list without `t`, which is at the end of list `p` now. */
  ghost predicate Moved(r: Ready, r': Ready, t: nat, p: bv8) {
    forall q: bv8 {:trigger r'.List(q)} :: r'.List(q) == Without(r.List(q), t) + if q == p then [t] else []
  }

  lemma RemoveDrops(r: Ready, threads: Threads, t: nat)
    requires Consistent(r, threads) && t in threads
    ensures Dropped(r, r.Remove(t, threads[t].prio), t)
  {
    hide r.Remove, r.List, r.Indexed, Distinct;
    forall q: bv8 ensures r.Remove(t, threads[t].prio).List(q) == Without(r.List(q), t) {
      RemoveLists(r, t, threads[t].prio, q);
      assert Home(r, threads, t);
      if t !in r.List(q) {
        WithoutAbsent(r.List(q), t);
      }
    }
  }

  lemma InsertMoves(r: Ready, threads: Threads, t: nat)
    requires Consistent(r, threads) && t in threads && threads[t].stat != Listed
    ensures Moved(r, r.Insert(t, threads[t].prio), t, threads[t].prio)
  {
    hide r.Insert, r.List, r.Indexed, Distinct;
    forall q: bv8
      ensures r.Insert(t, threads[t].prio).List(q) == Without(r.List(q), t) + if q == threads[t].prio then [t] else []
    {
      InsertLists(r, t, threads[t].prio, q);
      assert Home(r, threads, t);
      WithoutAbsent(r.List(q), t);
    }
  }

  lemma MovedTwice(r: Ready, s: Ready, r': Ready, t: nat, p: bv8)
    requires Dropped(r, s, t) && Moved(s, r', t, p)
    ensures Moved(r, r', t, p)
  {
    hide r.List;
    forall q: bv8 ensures r'.List(q) == Without(r.List(q), t) + if q == p then [t] else [] {
      assert s.List(q) == Without(r.List(q), t);
      WithoutAbsent(s.List(q), t);
    }
  }

  /** Off its list and to the end of another. */
  lemma RequeueRight(r: Ready, threads: Threads, t: nat, p: bv8)
    requires Consistent(r, threads) && t in threads && threads[t].stat == Listed
    ensures var r' := r.Remove(t, threads[t].prio).Insert(t, p);
            Consistent(r', threads[t := threads[t].WithPrio(p)]) && Moved(r, r', t, p)
  {
    hide Consistent, Moved, Dropped, r.Insert, r.Remove, Bit8, Bit32, Number, Low;
    var s, waiting := r.Remove(t, threads[t].prio), threads[t := threads[t].(stat := Waiting)];
    var ready := waiting[t := threads[t].WithPrio(p).(stat := Waiting)];
    MaskedIf(r, threads, t);
    RemoveConsistent(r, threads, t, Waiting);
    RemoveDrops(r, threads, t);
    OtherConsistent(s, waiting, t, ready[t]);
    InsertConsistent(s, ready, t);
    InsertMoves(s, ready, t);
    MovedTwice(r, s, s.Insert(t, p), t, p);
    assert ready[t := ready[t].(stat := Listed)] == threads[t := threads[t].WithPrio(p)];
  }

  lemma MovedSame(r: Ready, s: Ready, r': Ready, t: nat, p: bv8)
    requires SameLists(r, s) && Moved(s, r', t, p)
    ensures Moved(r, r', t, p)
  {
    hide r.List;
    forall q: bv8 ensures r'.List(q) == Without(r.List(q), t) + if q == p then [t] else [] {
      assert s.List(q) == r.List(q);
    }
  }

  /** Removal by the masks that a thread carries. */
  lemma RemoveByMasks(r: Ready, t: nat, th: Thread)
    requires th.Masked()
    ensures var rest, byte := Without(r.List(th.prio), t), AndNot8(r.Byte(th.number), th.highMask);
            var lists, table := r.lists[Index(th.prio) := rest], r.table[Index(th.number) := byte];
            r.Remove(t, th.prio) ==
              if rest != [] then Ready(r.group, r.table, lists)
              else Ready(if byte == 0 then AndNot32(r.group, th.numberMask) else r.group, table, lists)
  {
    hide Bit8, Bit32, Number, Low, AndNot8, AndNot32;
  }

  class Scheduler {
    var group: bv32
    var table: map<Index, bv8>
    var lists: map<Index, seq<nat>>
    var threads: Threads
    var current: Option<nat>
    var lockNest: nat

    function R(): (r: Ready)
      reads this`group, this`table, this`lists
    {
      Ready(group, table, lists)
    }

    ghost predicate Valid()
      reads this
    {
      Consistent(R(), threads) && OneRuns(threads, current)
    }

    /** rt_schedule_insert_thread. */
    method Insert(t: nat)
      requires t in threads && threads[t].Masked()
      modifies this`group, this`table, this`lists, this`threads
      ensures current == Some(t) ==> R() == old(R()) && threads == old(threads)[t := old(threads)[t].(stat := Running)]
      ensures current != Some(t) ==>
                R() == old(R()).Insert(t, old(threads)[t].prio)
                    && threads == old(threads)[t := old(threads)[t].(stat := Listed)]
    {
      hide Bit8, Bit32, Number, Low, Or8, Or32, AndNot8, AndNot32;
      var th := threads[t];
      if current == Some(t) {
        threads := threads[t := th.(stat := Running)];
        return;
      }
      threads := threads[t := th.(stat := Listed)];
      lists := lists[Index(th.prio) := R().List(th.prio) + [t]];
      table := table[Index(th.number) := Or8(R().Byte(th.number), th.highMask)];
      group := Or32(group, th.numberMask);
    }

    /** rt_schedule_remove_thread. */
    method Remove(t: nat)
      requires t in threads && threads[t].Masked()
      modifies this`group, this`table, this`lists
      ensures R() == old(R()).Remove(t, threads[t].prio)
    {
      hide Bit8, Bit32, Number, Low, AndNot8, AndNot32;
      var th := threads[t];
      RemoveByMasks(R(), t, th);
      hide th.Masked, old(R()).Remove;
      var rest := Without(R().List(th.prio), t);
      lists := lists[Index(th.prio) := rest];
      if rest == [] {
        var byte := AndNot8(R().Byte(th.number), th.highMask);
        table := table[Index(th.number) := byte];
        if byte == 0 {
          group := AndNot32(group, th.numberMask);
        }
      }
    }

    constructor (threads: Threads)
      requires forall t :: t in threads ==> threads[t].stat == Initial
      ensures Valid() && this.threads == threads && current == None && lockNest == 0 && R() == Ready(0, map[], map[])
    {
      hide Has8, Has32;
      group, table, lists, this.threads, current, lockNest := 0, map[], map[], threads, None, 0;
      new;
      EmptyConsistent(threads);
    }

    /** rt_schedule. */
    method Schedule()
      requires Valid() && current.Some?
      modifies this`group, this`table, this`lists, this`threads, this`current
      ensures Valid()
      ensures lockNest != 0 || old(group) == 0 ==> R() == old(R()) && threads == old(threads) && current == old(current)
      ensures lockNest == 0 && (old(group) != 0 || old(threads)[old(current).value].stat == Running) ==>
                && current.Some? && threads[current.value].stat == Running
                && MostUrgent(threads, threads[current.value].prio)
      ensures lockNest == 0 && old(group) != 0 ==>
                Switched(old(R()), old(threads), old(current).value, R(), threads, current)
      ensures lockNest == 0 && old(threads)[old(current).value].stat == Running ==>
                (current == old(current) <==> Ahead(old(threads), old(current).value))
    {
      hide Consistent, Ahead, Switched, Unbeaten, MostUrgent;
      if lockNest == 0 {
        if group != 0 {
          Dispatch();
        } else {
          IdleUrgent(R(), threads, threads[current.value].prio);
          UnbeatenIff(threads, threads[current.value].prio);
          NobodyAhead(R(), threads, current.value);
        }
      }
    }

    /** rt_schedule when some thread is ready. */
    method Dispatch()
      requires Valid() && current.Some? && group != 0
      modifies this`group, this`table, this`lists, this`threads, this`current
      ensures Valid() && current.Some? && threads[current.value].stat == Running
      ensures MostUrgent(threads, threads[current.value].prio)
      ensures Switched(old(R()), old(threads), old(current).value, R(), threads, current)
      ensures old(threads)[old(current).value].stat == Running ==>
                (current == old(current) <==> Ahead(old(threads), old(current).value))
    {
      hide Consistent, Highest, Turned, SameLists, MostUrgent, Unbeaten, Ahead, old(R()).Remove, old(R()).List;
      hide Bit8, Bit32, Number, Low, Precedes;
      HighestUrgent(R(), threads);
      var from, p := current.value, Highest(R());
      AheadIff(R(), threads, from);
      var to, stays := R().List(p)[0], threads[from].stat == Running && Precedes(threads[from].prio, p);
      if stays {
        UrgentBelow(threads, threads[from].prio, p);
        Stay(from);
      } else {
        HeadNot(R(), threads, from, to, p);
        SwitchTo(from, to, p);
      }
      UnbeatenIff(threads, threads[current.value].prio);
    }

    /** The current thread is taken off a list on which it is not, and runs on. */
    method Stay(from: nat)
      requires Valid() && current == Some(from) && threads[from].stat == Running
      modifies this`group, this`table, this`lists, this`threads
      ensures Valid() && threads == old(threads) && SameLists(old(R()), R())
    {
      hide Consistent, SameLists, old(R()).Remove, Bit8, Bit32, Number, Low;
      MaskedIf(R(), threads, from);
      StayConsistent(R(), threads, from);
      Remove(from);
      threads := threads[from := threads[from].(stat := Running)];
      assert threads == old(threads);
    }

    /** The switch itself: the thread that was running goes to the end of its list first. */
    method SwitchTo(from: nat, to: nat, p: bv8)
      requires Valid() && current == Some(from)
      requires R().List(p) != [] && to == R().List(p)[0] && Unbeaten(threads, p)
      requires threads[from].stat == Running ==> !Precedes(threads[from].prio, p)
      modifies this`group, this`table, this`lists, this`threads, this`current
      ensures Valid() && current == Some(to) && to in old(threads)
      ensures threads == Handed(old(threads), from, to) && threads[to].prio == p && Unbeaten(threads, p)
      ensures Turned(old(R()), R(), p, old(threads)[from].stat == Running, from, old(threads)[from].prio)
    {
      SwitchConsistent(R(), threads, from, to, p);
      SwitchUrgent(threads, from, to, p);
      SwitchLists(R(), threads, from, to, p);
      HeadNot(R(), threads, from, to, p);
      hide Consistent, Turned, Unbeaten, old(R()).Remove, old(R()).Insert, old(R()).List;
      current := Some(to);
      if threads[from].stat == Running {
        Insert(from);
      }
      Remove(to);
      threads := threads[to := threads[to].(stat := Running)];
    }

    /** The section of rt_thread_suspend. It does not look at the status again. */
    method Park(t: nat)
      requires Valid() && t in threads && threads[t].stat != Initial
      modifies this`group, this`table, this`lists, this`threads
      ensures Valid()
      ensures threads == old(threads)[t := old(threads)[t].(stat := Waiting)] && Dropped(old(R()), R(), t)
    {
      hide Consistent, Dropped, old(R()).Remove, Bit8, Bit32, Number, Low;
      MaskedIf(R(), threads, t);
      RemoveConsistent(R(), threads, t, Waiting);
      RemoveDrops(R(), threads, t);
      Remove(t);
      threads := threads[t := threads[t].(stat := Waiting)];
    }

    /** rt_thread_suspend, when nothing comes between its steps. */
    method Suspend(t: nat) returns (ok: bool)
      requires Valid() && t in threads
      modifies this`group, this`table, this`lists, this`threads
      ensures Valid()
      ensures ok <==> old(threads)[t].stat == Listed || old(threads)[t].stat == Running
      ensures ok ==> threads == old(threads)[t := old(threads)[t].(stat := Waiting)] && Dropped(old(R()), R(), t)
      ensures !ok ==> threads == old(threads) && R() == old(R())
    {
      hide Consistent, Dropped;
      ok := threads[t].stat == Listed || threads[t].stat == Running;
      if ok {
        Park(t);
      }
    }

    /** The first section of rt_thread_resume: off the list of what it waits for. */
    method Detach(t: nat)
      requires Valid() && t in threads && threads[t].stat != Listed
      modifies this`lists
      ensures Valid() && SameLists(old(R()), R()) && R() == Detached(old(R()), t)
    {
      hide Consistent, SameLists;
      DetachIff(R(), threads, t);
      lists := map i | i in lists :: Without(lists[i], t);
    }

    /** The second section of rt_thread_resume, and rt_thread_timeout before it schedules. */
    method Attach(t: nat)
      requires Valid() && t in threads && threads[t].stat != Listed && threads[t].stat != Initial
      modifies this`group, this`table, this`lists, this`threads
      ensures Valid()
      ensures current == Some(t) ==> threads == old(threads)[t := old(threads)[t].(stat := Running)] && R() == old(R())
      ensures current != Some(t) ==>
        threads == old(threads)[t := old(threads)[t].(stat := Listed)] && Moved(old(R()), R(), t, old(threads)[t].prio)
    {
      hide Consistent, Moved, old(R()).Insert, Bit8, Bit32, Number, Low;
      MaskedIf(R(), threads, t);
      InsertConsistent(R(), threads, t);
      InsertMoves(R(), threads, t);
      OtherConsistent(R(), threads, t, threads[t].(stat := Running));
      Insert(t);
    }

    /** rt_thread_resume, when nothing comes between its steps. */
    method Resume(t: nat) returns (ok: bool)
      requires Valid() && t in threads
      modifies this`group, this`table, this`lists, this`threads
      ensures Valid()
      ensures ok <==> old(threads)[t].stat == Waiting
      ensures !ok ==> threads == old(threads) && R() == old(R())
      ensures ok && current == Some(t) ==>
        threads == old(threads)[t := old(threads)[t].(stat := Running)] && SameLists(old(R()), R())
      ensures ok && current != Some(t) ==>
        threads == old(threads)[t := old(threads)[t].(stat := Listed)] && Moved(old(R()), R(), t, old(threads)[t].prio)
    {
      hide Consistent, Moved, SameLists;
      ok := threads[t].stat == Waiting;
      if ok {
        Detach(t);
        ghost var r := R();
        Attach(t);
        if current != Some(t) {
          MovedSame(old(R()), r, R(), t, old(threads)[t].prio);
        }
      }
    }

    /** rt_thread_control with RT_THREAD_CTRL_CHANGE_PRIORITY. */
    method ChangePriority(t: nat, p: bv8)
      requires Valid() && t in threads
      modifies this`group, this`table, this`lists, this`threads
      ensures Valid()
      ensures threads == old(threads)[t := old(threads)[t].WithPrio(p)]
      ensures if old(threads)[t].stat == Listed then Moved(old(R()), R(), t, p) else R() == old(R())
    {
      hide Consistent, Moved, Dropped, old(R()).Insert, old(R()).Remove, Bit8, Bit32, Number, Low;
      if threads[t].stat == Listed {
        Requeue(t, p);
      } else {
        OtherConsistent(R(), threads, t, threads[t].WithPrio(p));
        threads := threads[t := threads[t].WithPrio(p)];
      }
    }

    method Requeue(t: nat, p: bv8)
      requires Valid() && t in threads && threads[t].stat == Listed
      modifies this`group, this`table, this`lists, this`threads
      ensures Valid()
      ensures threads == old(threads)[t := old(threads)[t].WithPrio(p)] && Moved(old(R()), R(), t, p)
    {
      hide Consistent, Moved, Dropped, old(R()).Insert, old(R()).Remove, Bit8, Bit32, Number, Low, Thread.WithPrio;
      MaskedIf(R(), threads, t);
      RequeueRight(R(), threads, t, p);
      Remove(t);
      threads := threads[t := threads[t].WithPrio(p)];
      Insert(t);
      assert threads == old(threads)[t := old(threads)[t].WithPrio(p)];
    }

    /** rt_thread_startup before it schedules. */
    method Startup(t: nat)
      requires Valid() && t in threads && threads[t].stat == Initial
      modifies this`group, this`table, this`lists, this`threads
      ensures Valid()
      ensures threads == old(threads)[t := old(threads)[t].WithPrio(old(threads)[t].initPrio).(stat := Listed)]
      ensures Moved(old(R()), R(), t, old(threads)[t].initPrio)
    {
      hide Consistent, Moved, Bit8, Bit32, Number, Low;
      var th := threads[t].WithPrio(threads[t].initPrio).(stat := Waiting);
      OtherConsistent(R(), threads, t, th);
      threads := threads[t := th];
      var ok := Resume(t);
    }

    /** rt_thread_exit before it schedules. */
    method Exit()
      requires Valid() && current.Some? && threads[current.value].stat == Running
      modifies this`group, this`table, this`lists, this`threads
      ensures Valid()
      ensures threads == old(threads)[current.value := old(threads)[current.value].(stat := Closed)]
              && Dropped(old(R()), R(), current.value)
    {
      hide Consistent, Dropped, old(R()).Remove, Bit8, Bit32, Number, Low;
      var t := current.value;
      MaskedIf(R(), threads, t);
      RemoveConsistent(R(), threads, t, Closed);
      RemoveDrops(R(), threads, t);
      Remove(t);
      threads := threads[t := threads[t].(stat := Closed)];
    }

    /** rt_system_scheduler_start. */
    method Start()
      requires Valid() && current.None? && group != 0
      modifies this`group, this`table, this`lists, this`threads, this`current
      ensures Valid() && current.Some? && threads[current.value].stat == Running
      ensures MostUrgent(threads, threads[current.value].prio)
      ensures var to := current.value;
              && to in old(threads) && threads == old(threads)[to := old(threads)[to].(stat := Running)]
              && old(R()).List(threads[to].prio) != [] && old(R()).List(threads[to].prio)[0] == to
              && Dropped(old(R()), R(), to)
    {
      hide Consistent, Highest, old(R()).Remove, old(R()).List, Bit8, Bit32, Number, Low, Dropped;
      HighestUrgent(R(), threads);
      var p := Highest(R());
      var to := R().List(p)[0];
      ListedFacts(R(), threads, to, p);
      RemoveConsistent(R(), threads, to, Running);
      RemoveDrops(R(), threads, to);
      current := Some(to);
      Remove(to);
      threads := threads[to := threads[to].(stat := Running)];
      UnbeatenIff(threads, p);
    }

    method EnterCritical()
      requires Valid()
      modifies this`lockNest
      ensures Valid() && lockNest == old(lockNest) + 1
    {
      lockNest := lockNest + 1;
    }

    /** rt_exit_critical: leaving the last section schedules. */
    method ExitCritical()
      requires Valid() && current.Some?
      modifies this
      ensures Valid() && lockNest == if old(lockNest) <= 1 then 0 else old(lockNest) - 1
      ensures lockNest != 0 || old(group) == 0 ==> R() == old(R()) && threads == old(threads) && current == old(current)
      ensures lockNest == 0 && old(group) != 0 ==>
                Switched(old(R()), old(threads), old(current).value, R(), threads, current)
      ensures lockNest == 0 && old(threads)[old(current).value].stat == Running ==>
                (current == old(current) <==> Ahead(old(threads), old(current).value))
      ensures lockNest == 0 && (old(group) != 0 || old(threads)[old(current).value].stat == Running) ==>
                && current.Some? && threads[current.value].stat == Running
                && MostUrgent(threads, threads[current.value].prio)
    {
      hide Consistent, Switched, Ahead;
      if lockNest <= 1 {
        lockNest := 0;
        Schedule();
      } else {
        lockNest := lockNest - 1;
      }
    }
  }

  function Rotated(s: seq<nat>, k: nat): (r: seq<nat>)
    decreases k
  {
    if k == 0 || s == [] then s else Rotated(s[1..] + [s[0]], k - 1)
  }

  lemma {:induction false} RotatedFrom(s: seq<nat>, done: seq<nat>, k: nat)
    requires k <= |s|
    ensures Rotated(s + done, k) == s[k..] + (done + s[..k])
  {
    if k == 0 {
      assert s[0..] == s && done + s[..0] == done;
    } else {
      assert (s + done)[1..] + [(s + done)[0]] == s[1..] + (done + [s[0]]);
      RotatedFrom(s[1..], done + [s[0]], k - 1);
      assert s[1..][k - 1..] == s[k..] && done + [s[0]] + s[1..][..k - 1] == done + s[..k];
    }
  }

  lemma {:induction false} RotatedMore(s: seq<nat>, k: nat)
    ensures Rotated(s, k + 1) == Rotated(Rotated(s, k), 1)
    decreases k
  {
    if k == 0 || s == [] {
    } else {
      RotatedMore(s[1..] + [s[0]], k - 1);
    }
  }

  /** A state between two calls of rt_schedule. */
  datatype State = State(r: Ready, threads: Threads, current: nat) {
    ghost predicate Good() {
      Consistent(r, threads) && OneRuns(threads, Some(current)) && r.group != 0
    }

    /** The running thread, followed by the others of its priority. */
    function Round(p: bv8): (s: seq<nat>) {
      [current] + r.List(p)
    }

    /** The running thread shares the most urgent priority with a thread that is ready. */
    predicate AmongEquals(p: bv8) {
      current in threads && threads[current].stat == Running && threads[current].prio == p == Highest(r)
    }
  }

  ghost predicate Yield(s: State, s': State) {
    && s.Good() && s'.Good()
    && Switched(s.r, s.threads, s.current, s'.r, s'.threads, Some(s'.current))
  }

  /** One rt_schedule after the other. */
  ghost predicate Yields(run: seq<State>) {
    forall i, j :: 0 <= i && j == i + 1 && j < |run| ==> Yield(run[i], run[j])
  }

  /** One rt_schedule by a running thread with equals waiting is one turn of a round robin. */
  lemma YieldTurns(s: State, s': State, p: bv8)
    requires Yield(s, s') && s.AmongEquals(p)
    ensures s'.Round(p) == Rotated(s.Round(p), 1) && s'.AmongEquals(p)
    ensures forall q: bv8 :: q != p ==> s'.r.List(q) == s.r.List(q)
  {
    hide s.r.List, Highest, Consistent;
    HighestUrgent(s.r, s.threads);
    AheadIff(s.r, s.threads, s.current);
    hide Ahead;
    var l := s.r.List(p);
    assert s'.r.List(p) == l[1..] + [s.current];
    assert s.Round(p)[1..] + [s.Round(p)[0]] == l + [s.current];
    assert Rotated(s.Round(p), 1) == Rotated(s.Round(p)[1..] + [s.Round(p)[0]], 0);
    assert s'.Round(p) == l + [s.current];
    assert s'.threads[s'.current].prio == p;
    SameHighest(s, s', p);
  }

  lemma SameHighest(s: State, s': State, p: bv8)
    requires s.Good() && s'.Good() && Highest(s.r) == p && s'.r.List(p) != []
    requires forall q: bv8 :: q != p ==> s'.r.List(q) == s.r.List(q)
    ensures Highest(s'.r) == p
  {
    hide s.r.List, Highest;
    var h := Highest(s'.r);
    HighestRight(s.r, h);
    HighestRight(s'.r, p);
    assert h != p ==> s'.r.List(h) == s.r.List(h);
  }

  /** Threads that share the most urgent priority and yield take turns: `k` calls of rt_schedule turn the
      round by `k` places, and nothing else changes in the lists. */
  lemma {:induction false} TakeTurns(run: seq<State>, k: nat, p: bv8)
    requires Yields(run) && k < |run| && run[0].AmongEquals(p)
    ensures run[k].Round(p) == Rotated(run[0].Round(p), k) && run[k].AmongEquals(p)
    ensures forall q: bv8 :: q != p ==> run[k].r.List(q) == run[0].r.List(q)
  {
    hide run[0].r.List, Highest, Yield, State.AmongEquals, State.Round;
    if k == 0 {
    } else {
      TakeTurns(run, k - 1, p);
      YieldTurns(run[k - 1], run[k], p);
      RotatedMore(run[0].Round(p), k - 1);
    }
  }

  /** After `k` calls the thread that was `k` places behind runs, and after a whole round everything is
      as before. */
  lemma RoundRobin(run: seq<State>, k: nat, p: bv8)
    requires Yields(run) && k < |run| && run[0].AmongEquals(p) && k <= |run[0].Round(p)|
    ensures run[k].Round(p) == run[0].Round(p)[k..] + run[0].Round(p)[..k]
    ensures k < |run[0].Round(p)| ==> run[k].current == run[0].Round(p)[k]
    ensures k == |run[0].Round(p)| ==>
              run[k].current == run[0].current && forall q: bv8 :: run[k].r.List(q) == run[0].r.List(q)
  {
    hide run[0].r.List, Highest, Yields;
    TakeTurns(run, k, p);
    var s := run[0].Round(p);
    RotatedFrom(s, [], k);
    assert s + [] == s && [] + s[..k] == s[..k];
    assert run[k].current == run[k].Round(p)[0];
    if k == |s| {
      assert s[k..] + s[..k] == s;
      assert run[k].r.List(p) == run[k].Round(p)[1..] == s[1..] == run[0].r.List(p);
    }
  }
}
