/** The list of suspended threads of an IPC object (rt_ipc_list_suspend in src/ipc.c). */
module WaitList {
  import opened Lists

  type Priorities = map<nat, int>

  ghost predicate Known(ws: seq<nat>, prio: Priorities) {
    forall w :: w in ws ==> w in prio
  }

  /** Most urgent first; lower numbers are more urgent. */
  ghost predicate ByUrgency(ws: seq<nat>, prio: Priorities)
    requires Known(ws, prio)
  {
    ws != [] ==> (forall w :: w in ws[1..] ==> prio[ws[0]] <= prio[w]) && ByUrgency(ws[1..], prio)
  }

  /** `t` was put behind everyone who is at least as urgent and before everyone else. */
  ghost predicate Placed(ws: seq<nat>, prio: Priorities, t: nat, r: seq<nat>)
    requires Known(ws, prio) && t in prio
  {
    exists k ::
      && 0 <= k <= |ws|
      && r == ws[..k] + [t] + ws[k..]
      && (forall w :: w in ws[..k] ==> prio[w] <= prio[t])
      && (forall w :: w in ws[k..] ==> prio[t] < prio[w])
  }

  lemma PlacedByUrgency(ws: seq<nat>, prio: Priorities, t: nat, r: seq<nat>)
    requires Known(ws, prio) && t in prio && ByUrgency(ws, prio) && Placed(ws, prio, t, r)
    ensures Known(r, prio) && ByUrgency(r, prio)
    ensures forall w :: w in r <==> w in ws || w == t
  {
    var k :| 0 <= k <= |ws| && r == ws[..k] + [t] + ws[k..] &&
      (forall w :: w in ws[..k] ==> prio[w] <= prio[t]) && forall w :: w in ws[k..] ==> prio[t] < prio[w];
    hide ByUrgency;
    PlacedBehind(ws, prio, t, k);
  }

  lemma PutIn(ws: seq<nat>, t: nat, k: nat)
    requires k <= |ws|
    ensures forall w :: w in ws[..k] + [t] + ws[k..] <==> w in ws || w == t
  {
    assert ws == ws[..k] + ws[k..];
  }

  lemma PutInRest(ws: seq<nat>, t: nat, k: nat)
    requires 0 < k <= |ws|
    ensures ws[..k] == [ws[0]] + ws[1..][..k - 1] && ws[k..] == ws[1..][k - 1..]
    ensures (ws[..k] + [t] + ws[k..])[1..] == ws[1..][..k - 1] + [t] + ws[1..][k - 1..]
  {
  }

  lemma {:induction false} PlacedBehind(ws: seq<nat>, prio: Priorities, t: nat, k: nat)
    requires Known(ws, prio) && t in prio && ByUrgency(ws, prio) && k <= |ws|
    requires forall w :: w in ws[..k] ==> prio[w] <= prio[t]
    requires forall w :: w in ws[k..] ==> prio[t] < prio[w]
    ensures var r := ws[..k] + [t] + ws[k..];
            Known(r, prio) && ByUrgency(r, prio) && forall w :: w in r <==> w in ws || w == t
  {
    var r := ws[..k] + [t] + ws[k..];
    PutIn(ws, t, k);
    if k == 0 {
      assert ws[0..] == ws && r[1..] == ws;
    } else {
      PutInRest(ws, t, k);
      PlacedBehind(ws[1..], prio, t, k - 1);
      PutIn(ws[1..], t, k - 1);
      assert r[0] == ws[0] && ws[0] in ws[..k];
    }
  }

  lemma {:induction false} WithoutByUrgency(ws: seq<nat>, prio: Priorities, t: nat)
    requires Known(ws, prio) && ByUrgency(ws, prio)
    ensures Known(Without(ws, t), prio) && ByUrgency(Without(ws, t), prio)
  {
    if ws == [] {
    } else {
      WithoutByUrgency(ws[1..], prio, t);
      if ws[0] != t {
        assert Without(ws, t)[1..] == Without(ws[1..], t);
      }
    }
  }

  lemma {:induction false} SamePriorities(ws: seq<nat>, prio: Priorities, prio': Priorities)
    requires Known(ws, prio) && Known(ws, prio') && ByUrgency(ws, prio)
    requires forall w :: w in ws ==> prio'[w] == prio[w]
    ensures ByUrgency(ws, prio')
  {
    if ws == [] {
    } else {
      SamePriorities(ws[1..], prio, prio');
    }
  }

  /** The search of rt_ipc_list_suspend under RT_IPC_FLAG_PRIO. */
  method Place(ws: seq<nat>, prio: Priorities, t: nat) returns (r: seq<nat>)
    requires Known(ws, prio) && t in prio && ByUrgency(ws, prio) && Distinct(ws) && t !in ws
    ensures Placed(ws, prio, t, r) && Known(r, prio) && ByUrgency(r, prio) && Distinct(r)
    ensures forall w :: w in r <==> w in ws || w == t
  {
    hide ByUrgency, Distinct, Placed;
    var k := 0;
    while k < |ws| && !(prio[t] < prio[ws[k]])
      invariant 0 <= k <= |ws|
      invariant forall w :: w in ws[..k] ==> prio[w] <= prio[t]
    {
      assert ws[..k + 1] == ws[..k] + [ws[k]];
      k := k + 1;
    }
    r := ws[..k] + [t] + ws[k..];
    PlacedAt(ws, prio, t, k);
  }

  lemma {:induction false} RestLessUrgent(ws: seq<nat>, prio: Priorities, k: nat)
    requires Known(ws, prio) && ByUrgency(ws, prio) && k < |ws|
    ensures forall w :: w in ws[k..] ==> prio[ws[k]] <= prio[w]
  {
    if k == 0 {
    } else {
      RestLessUrgent(ws[1..], prio, k - 1);
      assert ws[1..][k - 1..] == ws[k..];
    }
  }

  lemma PlacedAt(ws: seq<nat>, prio: Priorities, t: nat, k: nat)
    requires Known(ws, prio) && t in prio && ByUrgency(ws, prio) && Distinct(ws) && t !in ws
    requires k <= |ws| && (forall w :: w in ws[..k] ==> prio[w] <= prio[t]) && (k < |ws| ==> prio[t] < prio[ws[k]])
    ensures var r := ws[..k] + [t] + ws[k..];
            Placed(ws, prio, t, r) && Known(r, prio) && ByUrgency(r, prio) && Distinct(r)
            && forall w :: w in r <==> w in ws || w == t
  {
    hide ByUrgency, Distinct;
    if k < |ws| {
      RestLessUrgent(ws, prio, k);
    }
    PlacedByUrgency(ws, prio, t, ws[..k] + [t] + ws[k..]);
    assert ws[..k] + ws[k..] == ws;
    InsertDistinct(ws[..k], ws[k..], t);
  }
}

/** One mutex with RT_IPC_FLAG_PRIO and the priorities of the threads that use it (rt_mutex_take,
    rt_mutex_release in src/ipc.c, rt_thread_timeout in src/thread.c). Every method is one section
    with interrupts disabled. */
module PrioMutex {
  import opened Lists
  import opened Options
  import opened WaitList

  /** `hold` has eight bits. */
  const HOLD_RANGE: nat := 256

  function Increment(h: nat): (r: nat) {
    if h == 255 then 0 else h + 1
  }

  function Decrement(h: nat): (r: nat) {
    if h == 0 then 255 else h - 1
  }

  lemma Wraps(depth: nat)
    ensures Increment(depth % HOLD_RANGE) == (depth + 1) % HOLD_RANGE
    ensures depth > 0 ==> Decrement(depth % HOLD_RANGE) == (depth - 1) % HOLD_RANGE
    ensures depth > 0 ==> (Decrement(depth % HOLD_RANGE) == 0 <==> depth % HOLD_RANGE == 1)
    ensures 0 % HOLD_RANGE == 0 && 1 % HOLD_RANGE == 1
  {
  }

  const NO_PRIORITY := 0xFF

  datatype Outcome = Taken | TimedOut | Blocked

  ghost predicate Queued(waiters: seq<nat>, prio: Priorities) {
    Distinct(waiters) && Known(waiters, prio) && ByUrgency(waiters, prio)
  }

  /** `p` is the priority of someone who asked. */
  ghost predicate Lent(p: int, base: Priorities, asked: set<nat>) {
    exists w :: w in asked && w in base && p == base[w]
  }

  /** The owner is at least as urgent as everyone who waits; it runs at its own priority or at that
      of someone who asked for the mutex. */
  ghost predicate Boosted(o: nat, waiters: seq<nat>, prio: Priorities, base: Priorities, asked: set<nat>)
    requires Known(waiters, prio)
  {
    && o in prio && o in base && o !in waiters
    && prio[o] <= base[o]
    && (prio[o] == base[o] || Lent(prio[o], base, asked))
    && forall w :: w in waiters ==> prio[o] <= prio[w]
  }

  /** Everyone but the owner runs at the priority they were given. */
  ghost predicate Inherited(owner: Option<nat>, waiters: seq<nat>, prio: Priorities, base: Priorities, asked: set<nat>)
    requires Known(waiters, prio)
  {
    && prio.Keys == base.Keys
    && (forall t :: t in prio && owner != Some(t) ==> prio[t] == base[t])
    && (owner.None? ==> waiters == [])
    && (owner.Some? ==> Boosted(owner.value, waiters, prio, base, asked))
  }

  function Urgent(p: int, q: int): int {
    if p < q then p else q
  }

  lemma BlockInherits(o: nat, t: nat, waiters: seq<nat>, prio: Priorities, base: Priorities, asked: set<nat>,
                      waiters': seq<nat>)
    requires Known(waiters, prio) && Inherited(Some(o), waiters, prio, base, asked) && t in prio && t != o
    requires forall w :: w in waiters' <==> w in waiters || w == t
    ensures var prio' := prio[o := Urgent(prio[t], prio[o])];
            Known(waiters', prio') && Inherited(Some(o), waiters', prio', base, asked + {t})
  {
    assert t in asked + {t};
  }

  lemma HandOver(o: nat, waiters: seq<nat>, prio: Priorities, base: Priorities, asked: set<nat>)
    requires Queued(waiters, prio) && Inherited(Some(o), waiters, prio, base, asked)
    ensures prio[o := base[o]] == base && Queued(waiters, base)
    ensures waiters != [] ==>
              waiters[0] in base && Queued(waiters[1..], base)
                  && Inherited(Some(waiters[0]), waiters[1..], base, base, {})
    ensures waiters == [] ==> Inherited(None, waiters, base, base, {})
  {
    SamePriorities(waiters, prio, base);
  }

  /** With RT_IPC_FLAG_FIFO the waiters are in any order. After a full release the new owner is at least as
      urgent as everyone who waits if and only if the first waiter was. */
  lemma HandOverIff(o: nat, waiters: seq<nat>, prio: Priorities, base: Priorities, asked: set<nat>)
    requires Distinct(waiters) && waiters != [] && Known(waiters, prio) && Known(waiters, base)
    requires Inherited(Some(o), waiters, prio, base, asked)
    ensures Known(waiters[1..], base)
    ensures Inherited(Some(waiters[0]), waiters[1..], base, base, {}) <==>
            forall w :: w in waiters[1..] ==> base[waiters[0]] <= base[w]
  {
    assert waiters[0] in waiters && forall w :: w in waiters[1..] ==> w in waiters;
  }

  /** Thread 1 owns the mutex; threads 2 and 3 wait in this order, and 3 is more urgent than 2. */
  lemma FifoInverts()
    ensures var prio, base, waiters := map[1 := 5, 2 := 20, 3 := 5], map[1 := 30, 2 := 20, 3 := 5], [2, 3];
            && Known(waiters, prio) && Inherited(Some(1), waiters, prio, base, {2, 3})
            && Known(waiters[1..], base) && !Inherited(Some(waiters[0]), waiters[1..], base, base, {})
  {
    var prio: Priorities, base: Priorities := map[1 := 5, 2 := 20, 3 := 5], map[1 := 30, 2 := 20, 3 := 5];
    assert [2, 3][1..] == [3] && 3 in [3];
    assert Lent(5, base, {2, 3}) by { assert 3 in {2, 3} && base[3] == 5; }
  }

  class Mutex {
    var value: nat
    var owner: Option<nat>
    var original: int
    var hold: nat
    var waiters: seq<nat>
    var prio: Priorities

    /** The priorities the threads were given, how often the owner has taken the mutex, and who has
        had to wait for it since. */
    ghost var base: Priorities
    ghost var depth: nat
    ghost var asked: set<nat>

    ghost predicate Counted()
      reads this
    {
      && (depth == 0 <==> owner.None?)
      && hold == depth % HOLD_RANGE
      && value == (if owner.None? then 1 else 0)
      && original == (if owner.Some? && owner.value in base then base[owner.value] else NO_PRIORITY)
    }

    ghost predicate Valid()
      reads this
    {
      Queued(waiters, prio) && Inherited(owner, waiters, prio, base, asked) && Counted()
    }

    constructor (prio: Priorities)
      ensures Valid() && owner.None? && waiters == [] && this.prio == prio && base == prio
    {
      value, owner, original, hold, waiters := 1, None, NO_PRIORITY, 0, [];
      this.prio, base, depth, asked := prio, prio, 0, {};
    }

    method Take(t: nat, wait: bool) returns (r: Outcome)
      requires Valid() && t in prio && t !in waiters
      modifies this
      ensures Valid() && base == old(base)
      ensures r == if old(owner) in {None, Some(t)} then Taken else if wait then Blocked else TimedOut
      ensures r == Taken ==> owner == Some(t) && depth == old(depth) + 1 && prio == old(prio) && waiters == old(waiters)
      ensures r == TimedOut ==>
                owner == old(owner) && depth == old(depth) && prio == old(prio) && waiters == old(waiters)
      ensures r == Blocked ==>
        && owner == old(owner) && depth == old(depth)
        && Placed(old(waiters), prio, t, waiters)
        && prio == old(prio)[owner.value := Urgent(old(prio)[t], old(prio)[owner.value])]
    {
      hide ByUrgency, Distinct, Placed, Lent;
      Wraps(depth);
      if owner == Some(t) {
        hold := Increment(hold);
        depth := depth + 1;
        r := Taken;
      } else if value > 0 {
        value := value - 1;
        owner := Some(t);
        original := prio[t];
        hold := Increment(hold);
        depth := depth + 1;
        r := Taken;
      } else if !wait {
        r := TimedOut;
      } else {
        Block(t);
        r := Blocked;
      }
    }

    /** The owner inherits the priority of a more urgent thread, which then waits. */
    method Block(t: nat)
      requires Valid() && t in prio && t !in waiters && owner.Some? && owner != Some(t)
      modifies this`prio, this`waiters, this`asked
      ensures Valid()
      ensures Placed(old(waiters), prio, t, waiters)
      ensures prio == old(prio)[owner.value := Urgent(old(prio)[t], old(prio)[owner.value])]
    {
      hide ByUrgency, Distinct, Placed, Inherited;
      var o := owner.value;
      assert o in prio && o !in waiters by { InheritedOwner(); }
      if prio[t] < prio[o] {
        prio := prio[o := prio[t]];
      }
      assert prio == old(prio)[o := Urgent(old(prio)[t], old(prio)[o])];
      SamePriorities(waiters, old(prio), prio);
      waiters := Place(waiters, prio, t);
      BlockInherits(o, t, old(waiters), old(prio), base, asked, waiters);
      asked := asked + {t};
    }

    lemma InheritedOwner()
      requires Valid() && owner.Some?
      ensures owner.value in prio && owner.value !in waiters && original == base[owner.value]
    {
    }

    /** A waiter gives up. The owner keeps what it has inherited. */
    method Timeout(t: nat)
      requires Valid() && t in waiters
      modifies this`waiters
      ensures Valid()
      ensures waiters == Without(old(waiters), t)
    {
      hide ByUrgency, Distinct, Lent;
      WithoutByUrgency(waiters, prio, t);
      WithoutDistinct(waiters, t);
      waiters := Without(waiters, t);
    }

    /** The mutex is given up when the eight-bit count returns to 0. */
    method Release(t: nat) returns (ok: bool)
      requires Valid() && t in prio && t !in waiters
      modifies this
      ensures Valid() && base == old(base)
      ensures ok <==> old(owner) == Some(t)
      ensures !ok ==> owner == old(owner) && depth == old(depth) && prio == old(prio) && waiters == old(waiters)
      ensures ok && old(depth) % HOLD_RANGE != 1 ==>
        owner == old(owner) && depth == old(depth) - 1 && prio == old(prio) && waiters == old(waiters)
      ensures ok && old(depth) % HOLD_RANGE == 1 ==>
        && prio == base
        && if old(waiters) == [] then owner == None && waiters == []
           else owner == Some(old(waiters)[0]) && waiters == old(waiters)[1..] && depth == 1
    {
      hide Queued, Inherited;
      if owner != Some(t) {
        return false;
      }
      Wraps(depth);
      InheritedOwner();
      ok := true;
      hold := Decrement(hold);
      depth := depth - 1;
      if hold == 0 {
        HandOver(t, waiters, prio, base, asked);
        if original != prio[t] {
          prio := prio[t := original];
        }
        assert prio == base;
        if waiters != [] {
          var next := waiters[0];
          owner := Some(next);
          original := prio[next];
          hold := Increment(hold);
          waiters := waiters[1..];
          depth, asked := 1, {};
        } else {
          value := value + 1;
          owner, original := None, NO_PRIORITY;
          depth, asked := 0, {};
        }
      }
    }
  }

  /** How many releases give up a mutex that was taken `n` times. */
  function ReleasesFor(n: nat): (k: nat)
    requires n > 0
  {
    (n - 1) % HOLD_RANGE + 1
  }

  /** Takes and releases pair up exactly as long as the mutex is not taken more than 256 times. */
  lemma ReleasesPairUp(n: nat)
    requires n > 0
    ensures 0 < ReleasesFor(n) <= n && (ReleasesFor(n) == n <==> n <= HOLD_RANGE)
  {
  }

  lemma GivenUpAt(n: nat, k: nat)
    requires n > 0 && k < ReleasesFor(n)
    ensures k < n && ((n - k) % HOLD_RANGE == 1 <==> k == ReleasesFor(n) - 1)
  {
    ReleasesPairUp(n);
    var q := (n - 1) / HOLD_RANGE;
    assert n - k == HOLD_RANGE * q + (ReleasesFor(n) - k);
    ModOf(q, ReleasesFor(n) - k);
  }

  lemma ModOf(q: nat, r: nat)
    requires 0 < r <= HOLD_RANGE
    ensures (HOLD_RANGE * q + r) % HOLD_RANGE == if r == HOLD_RANGE then 0 else r
  {
    if r == HOLD_RANGE {
      assert HOLD_RANGE * q + r == HOLD_RANGE * (q + 1);
    }
  }

  /** A thread takes a mutex `n` times, and releases it until it has given it up. */
  method Nest(prio: Priorities, t: nat, n: nat) returns (m: Mutex, releases: nat)
    requires t in prio && n > 0
    ensures m.Valid() && m.owner == None && releases == ReleasesFor(n) && (releases == n <==> n <= HOLD_RANGE)
  {
    ReleasesPairUp(n);
    hide ReleasesFor, Queued, Inherited;
    m := new Mutex(prio);
    var i := 0;
    while i < n
      invariant i <= n && m.Valid() && fresh(m) && m.prio == prio == m.base && m.waiters == [] && m.depth == i
      invariant m.owner == if i == 0 then None else Some(t)
    {
      var r := m.Take(t, false);
      i := i + 1;
    }
    releases := 0;
    while m.owner == Some(t)
      invariant m.Valid() && fresh(m) && m.prio.Keys == prio.Keys && m.base == prio && m.waiters == []
      invariant releases <= ReleasesFor(n)
                && (releases < ReleasesFor(n) ==> m.owner == Some(t) && m.depth == n - releases)
      invariant releases == ReleasesFor(n) ==> m.owner == None
      decreases ReleasesFor(n) - releases
    {
      GivenUpAt(n, releases);
      var ok := m.Release(t);
      releases := releases + 1;
    }
  }

  /** After 257 takes, one release gives the mutex up. */
  method Overnest(prio: Priorities, t: nat) returns (m: Mutex, releases: nat)
    requires t in prio
    ensures m.Valid() && m.owner == None && releases == 1
  {
    m, releases := Nest(prio, t, 257);
  }
}
