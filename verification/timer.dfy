/** The 32-bit tick arithmetic of the clock and the timers. */
module Ticks {

  const TICK_RANGE: int := 0x1_0000_0000
  const TICK_MAX: int := 0xFFFF_FFFF
  const HALF: int := TICK_MAX / 2

  /** The tick register that an unbounded clock value shows. */
  function Wrap(x: int): (r: int)
    ensures 0 <= r < TICK_RANGE
  {
    x % TICK_RANGE
  }

  /** Unsigned 32-bit subtraction. */
  function Sub(a: int, b: int): (r: int)
    ensures 0 <= r < TICK_RANGE
  {
    (a - b) % TICK_RANGE
  }

  /** The test that stops the insertion scan in front of a timer expiring at `t`. */
  predicate StopsBefore(t: int, timer: int) {
    Sub(t, timer) != 0 && Sub(t, timer) < HALF
  }

  /** The test that makes a timer due. */
  predicate IsDue(current: int, timeout: int) {
    Sub(current, timeout) < HALF
  }

  lemma SubWrap(a: int, b: int)
    ensures Sub(Wrap(a), Wrap(b)) == Wrap(a - b)
  {
    var qa, qb := a / TICK_RANGE, b / TICK_RANGE;
    assert Wrap(a) - Wrap(b) == (a - b) + (qb - qa) * TICK_RANGE;
    WrapShift(a - b, qb - qa);
  }

  lemma WrapShift(x: int, k: int)
    ensures Wrap(x + k * TICK_RANGE) == Wrap(x)
  {
  }

  lemma WrapAdd(a: int, k: int)
    ensures Wrap(Wrap(a) + k) == Wrap(a + k)
  {
    WrapShift(Wrap(a) + k, a / TICK_RANGE);
  }

  /** Distances for which the modular tests cannot be told from unbounded ones. */
  predicate InWindow(distance: int) {
    HALF - TICK_RANGE <= distance < HALF
  }

  /** On clock values less than one tick range apart, the insertion test agrees with the
      unbounded comparison exactly inside the window. */
  lemma StopsBeforeExact(a: int, b: int)
    requires -TICK_RANGE < a - b < TICK_RANGE
    ensures (StopsBefore(Wrap(a), Wrap(b)) <==> a > b) <==> InWindow(a - b)
  {
    SubWrap(a, b);
  }

  lemma IsDueExact(current: int, deadline: int)
    requires -TICK_RANGE < current - deadline < TICK_RANGE
    ensures (IsDue(Wrap(current), Wrap(deadline)) <==> deadline <= current) <==> InWindow(current - deadline)
  {
    SubWrap(current, deadline);
  }
}

/** The reference: the active timers as one list over an unbounded clock. */
module Agenda {
  import opened Lists

  type Id = nat

  /** `queue` lists the active timers; `deadline` and `serial` (when armed, relative to
      the other timers) say how they compare; `next` is the next serial number. */
  datatype Agenda = Agenda(queue: seq<Id>, deadline: map<Id, int>, serial: map<Id, nat>, next: nat) {
    predicate Knows(x: Id) {
      x in deadline && x in serial && serial[x] < next
    }

    predicate Before(x: Id, y: Id) {
      && Knows(x)
      && Knows(y)
      && (deadline[x] < deadline[y] || (deadline[x] == deadline[y] && serial[x] < serial[y]))
    }

    /** Earlier deadline first, and armed earlier first among equal deadlines. */
    ghost predicate Sorted(row: seq<Id>)
      ensures Sorted(row) ==> forall x :: x in row ==> Knows(x)
    {
      row != [] ==> Knows(row[0]) && (forall x :: x in row[1..] ==> Before(row[0], x)) && Sorted(row[1..])
    }

    ghost predicate Ok() {
      Sorted(queue)
    }
  }

  ghost predicate Dated(row: seq<Id>, deadline: map<Id, int>) {
    forall x :: x in row ==> x in deadline
  }

  /** Plain insertion: behind every timer that does not expire later. */
  function Insert(row: seq<Id>, deadline: map<Id, int>, t: Id): (r: seq<Id>)
    requires Dated(row, deadline) && t in deadline
    ensures forall x :: x in r <==> x in row || x == t
  {
    if row == [] || deadline[row[0]] > deadline[t] then [t] + row
    else [row[0]] + Insert(row[1..], deadline, t)
  }

  function Arm(a: Agenda, t: Id, d: int): (r: Agenda)
    requires Dated(a.queue, a.deadline)
  {
    var dl := a.deadline[t := d];
    Agenda(Insert(Without(a.queue, t), dl, t), dl, a.serial[t := a.next], a.next + 1)
  }

  function Disarm(a: Agenda, t: Id): (r: Agenda) {
    a.(queue := Without(a.queue, t))
  }

  /** Removing from a sorted row leaves the rest in the same order. */
  lemma {:induction false} WithoutSorted(a: Agenda, row: seq<Id>, t: Id)
    requires a.Sorted(row)
    ensures a.Sorted(Without(row, t))
  {
    if row == [] {
    } else {
      WithoutSorted(a, row[1..], t);
      if row[0] != t {
        var r := Without(row, t);
        assert r[1..] == Without(row[1..], t);
      }
    }
  }

  /** Arming a timer does not disturb the order of the others. */
  lemma {:induction false} StaysSorted(a: Agenda, row: seq<Id>, t: Id, d: int)
    requires a.Sorted(row) && t !in row
    ensures Arm(a.(queue := []), t, d).Sorted(row)
  {
    if row == [] {
    } else {
      assert row[0] in row && forall x :: x in row[1..] ==> x in row;
      StaysSorted(a, row[1..], t, d);
    }
  }

  lemma {:induction false} InsertSorted(a: Agenda, row: seq<Id>, t: Id, d: int)
    requires a.Sorted(row) && t !in row
    ensures Arm(a.(queue := []), t, d).Sorted(Insert(row, a.deadline[t := d], t))
  {
    var b, dl := Arm(a.(queue := []), t, d), a.deadline[t := d];
    var r := Insert(row, dl, t);
    StaysSorted(a, row, t, d);
    if row == [] || dl[row[0]] > d {
      assert r[1..] == row;
      forall x | x in row ensures b.Before(t, x) {
        assert x == row[0] || x in row[1..];
      }
    } else {
      assert t !in row[1..];
      InsertSorted(a, row[1..], t, d);
      assert r[1..] == Insert(row[1..], dl, t);
      assert b.Before(row[0], t);
    }
  }

  lemma ArmOk(a: Agenda, t: Id, d: int)
    requires a.Ok()
    ensures Arm(a, t, d).Ok()
  {
    WithoutSorted(a, a.queue, t);
    InsertSorted(a, Without(a.queue, t), t, d);
    assert Arm(a, t, d).Sorted(Arm(a, t, d).queue) by {
      SortedSame(Arm(a.(queue := []), t, d), Arm(a, t, d), Arm(a, t, d).queue);
    }
  }

  /** Sortedness depends on the deadlines and serials only. */
  lemma {:induction false} SortedSame(a: Agenda, b: Agenda, row: seq<Id>)
    requires a.Sorted(row) && b == a.(queue := b.queue)
    ensures b.Sorted(row)
  {
    if row == [] {
    } else {
      SortedSame(a, b, row[1..]);
      assert forall x :: x in row[1..] ==> a.Before(row[0], x) && b.Before(row[0], x);
    }
  }

  /** The deadline of a timer that is not in the list may change. */
  lemma {:induction false} RedateSorted(a: Agenda, row: seq<Id>, t: Id, d: int)
    requires a.Sorted(row) && t !in row
    ensures a.(deadline := a.deadline[t := d]).Sorted(row)
  {
    if row == [] {
    } else {
      assert row[0] in row && forall x :: x in row[1..] ==> x in row;
      RedateSorted(a, row[1..], t, d);
    }
  }

  lemma DisarmOk(a: Agenda, t: Id)
    requires a.Ok()
    ensures Disarm(a, t).Ok()
  {
    WithoutSorted(a, a.queue, t);
    SortedSame(a, Disarm(a, t), Disarm(a, t).queue);
  }

  /** Sorting is canonical: the active timers and their serials fix the whole list. */
  lemma {:induction false} SortedUnique(a: Agenda, r: seq<Id>, s: seq<Id>)
    requires a.Sorted(r) && a.Sorted(s)
    requires forall x :: x in r <==> x in s
    ensures r == s
  {
    if r == [] {
      assert forall i :: 0 <= i < |s| ==> s[i] in s;
    } else {
      assert forall x :: x in r <==> x == r[0] || x in r[1..];
      assert r[0] in s && s[0] in s;
      assert forall x :: x in s <==> x == s[0] || x in s[1..];
      assert s[0] in r;
      SortedUnique(a, r[1..], s[1..]);
    }
  }

  predicate Subsequence(a: seq<Id>, b: seq<Id>) {
    a == [] || (b != [] && if a[0] == b[0] then Subsequence(a[1..], b[1..]) else Subsequence(a, b[1..]))
  }

  /** Between sorted rows, containment is enough for one to be a subsequence of the other. */
  lemma {:induction false} SortedSubsequence(a: Agenda, r: seq<Id>, s: seq<Id>)
    requires a.Sorted(r) && a.Sorted(s)
    requires forall x :: x in r ==> x in s
    ensures Subsequence(r, s)
    decreases |s|
  {
    if r == [] {
    } else {
      assert r[0] in r && r[0] in s;
      assert forall x :: x in r <==> x == r[0] || x in r[1..];
      assert forall x :: x in s <==> x == s[0] || x in s[1..];
      SortedSubsequence(a, if r[0] == s[0] then r[1..] else r, s[1..]);
    }
  }

  /** The leading timers of a row that have expired by `now`. */
  function Front(row: seq<Id>, deadline: map<Id, int>, now: int): (r: seq<Id>)
    requires Dated(row, deadline)
    ensures forall x :: x in r ==> x in row && deadline[x] <= now
  {
    if row == [] || deadline[row[0]] > now then [] else [row[0]] + Front(row[1..], deadline, now)
  }

  /** In a sorted row the expired timers all stand in front. */
  lemma {:induction false} FrontExactly(a: Agenda, row: seq<Id>, now: int, x: Id)
    requires a.Sorted(row) && x in row
    ensures a.deadline[x] <= now <==> x in Front(row, a.deadline, now)
  {
    if x == row[0] {
    } else {
      FrontExactly(a, row[1..], now, x);
    }
  }

  lemma {:induction false} FrontOfInsert(row: seq<Id>, deadline: map<Id, int>, t: Id, now: int)
    requires Dated(row, deadline) && t in deadline && now < deadline[t]
    ensures Front(Insert(row, deadline, t), deadline, now) == Front(row, deadline, now)
  {
    var r := Insert(row, deadline, t);
    if row == [] || deadline[row[0]] > deadline[t] {
      assert r[0] == t;
    } else {
      FrontOfInsert(row[1..], deadline, t, now);
      assert r[1..] == Insert(row[1..], deadline, t);
    }
  }

  lemma {:induction false} FrontSame(row: seq<Id>, deadline: map<Id, int>, t: Id, d: int, now: int)
    requires Dated(row, deadline) && t !in row
    ensures Front(row, deadline[t := d], now) == Front(row, deadline, now)
  {
    if row == [] {
    } else {
      FrontSame(row[1..], deadline, t, d, now);
    }
  }

  /** What the owner of a timer chooses. */
  datatype Conf = Conf(interval: nat, periodic: bool)

  ghost predicate Configured(a: Agenda, conf: map<Id, Conf>) {
    forall x :: x in a.queue ==> x in conf && x in a.deadline
  }

  predicate HeadDue(a: Agenda, now: int) {
    a.queue != [] && a.queue[0] in a.deadline && a.deadline[a.queue[0]] <= now
  }

  /** One turn of the expiry loop: take the first timer out and put it back if it is periodic. */
  function FireOne(a: Agenda, conf: map<Id, Conf>, now: int): (r: Agenda)
    requires Configured(a, conf) && a.queue != []
    ensures Configured(r, conf)
  {
    var t := a.queue[0];
    var rest := Disarm(a, t);
    if conf[t].periodic then Arm(rest, t, now + conf[t].interval) else rest
  }

  lemma FireOneOk(a: Agenda, conf: map<Id, Conf>, now: int)
    requires a.Ok() && Configured(a, conf) && a.queue != []
    ensures FireOne(a, conf, now).Ok()
  {
    hide Insert, Without, Agenda.Sorted;
    var t := a.queue[0];
    DisarmOk(a, t);
    if conf[t].periodic {
      ArmOk(Disarm(a, t), t, now + conf[t].interval);
    }
  }

  lemma DisarmHead(a: Agenda)
    requires a.Ok() && a.queue != []
    ensures Disarm(a, a.queue[0]).queue == a.queue[1..]
    ensures a.queue[0] !in a.queue[1..]
  {
    WithoutHead(a.queue);
  }

  lemma RearmFront(row: seq<Id>, deadline: map<Id, int>, t: Id, d: int, now: int)
    requires Dated(row, deadline) && t !in row && now < d
    ensures Front(Insert(Without(row, t), deadline[t := d], t), deadline[t := d], now) == Front(row, deadline, now)
  {
    WithoutAbsent(row, t);
    FrontOfInsert(row, deadline[t := d], t, now);
    FrontSame(row, deadline, t, d, now);
  }

  /** A turn of the loop takes one timer off the front, when it re-arms into the future. */
  lemma FireOneFront(a: Agenda, conf: map<Id, Conf>, now: int)
    requires Configured(a, conf) && HeadDue(a, now) && a.queue[0] !in a.queue[1..]
    requires conf[a.queue[0]].periodic ==> conf[a.queue[0]].interval >= 1
    ensures Front(a.queue, a.deadline, now) ==
            [a.queue[0]] + Front(FireOne(a, conf, now).queue, FireOne(a, conf, now).deadline, now)
  {
    hide Insert, Without, FireOne;
    FrontHead(a.queue, a.deadline, now);
    FireOneRest(a, conf, now);
  }

  lemma FireOneRest(a: Agenda, conf: map<Id, Conf>, now: int)
    requires Configured(a, conf) && a.queue != [] && a.queue[0] !in a.queue[1..] && Dated(a.queue[1..], a.deadline)
    requires conf[a.queue[0]].periodic ==> conf[a.queue[0]].interval >= 1
    ensures Front(FireOne(a, conf, now).queue, FireOne(a, conf, now).deadline, now) ==
            Front(a.queue[1..], a.deadline, now)
  {
    var t, d := a.queue[0], now + conf[a.queue[0]].interval;
    FireOneIs(a, conf, now);
    hide Front, Insert, Without, FireOne;
    if conf[t].periodic {
      RearmFront(a.queue[1..], a.deadline, t, d, now);
    }
  }

  lemma FrontHead(row: seq<Id>, deadline: map<Id, int>, now: int)
    requires Dated(row, deadline) && row != [] && deadline[row[0]] <= now
    ensures Front(row, deadline, now) == [row[0]] + Front(row[1..], deadline, now)
  {
  }

  lemma FireOneIs(a: Agenda, conf: map<Id, Conf>, now: int)
    requires Configured(a, conf) && a.queue != [] && a.queue[0] !in a.queue[1..]
    ensures var t, d, rest, r := a.queue[0], now + conf[a.queue[0]].interval, a.queue[1..], FireOne(a, conf, now);
            && Dated(rest, a.deadline)
            && (!conf[t].periodic ==> r.queue == rest && r.deadline == a.deadline)
            && (conf[t].periodic ==>
                  r.deadline == a.deadline[t := d] && r.queue == Insert(Without(rest, t), a.deadline[t := d], t))
  {
    hide Insert;
    WithoutHead(a.queue);
  }

  /** No expired timer re-arms itself for the very tick at which it is checked. */
  ghost predicate Draining(a: Agenda, conf: map<Id, Conf>, now: int)
    requires Configured(a, conf)
  {
    forall x :: x in Front(a.queue, a.deadline, now) && conf[x].periodic ==> conf[x].interval >= 1
  }

  /** The whole expiry loop. */
  ghost function Fire(a: Agenda, conf: map<Id, Conf>, now: int): (r: Agenda)
    requires a.Ok() && Configured(a, conf) && Draining(a, conf, now)
    decreases |Front(a.queue, a.deadline, now)|
  {
    if !HeadDue(a, now) then a
    else
      FireOneOk(a, conf, now);
      DisarmHead(a);
      FireOneFront(a, conf, now);
      Fire(FireOne(a, conf, now), conf, now)
  }

  /** Whether and when a timer is due after the expiry loop. */
  ghost predicate Settled(a: Agenda, b: Agenda, conf: map<Id, Conf>, now: int, x: Id)
    requires Configured(a, conf)
  {
    var fired := x in Front(a.queue, a.deadline, now);
    && (x in b.queue <==> if fired then x in conf && conf[x].periodic else x in a.queue)
    && (x in b.queue ==> b.Knows(x) && b.deadline[x] > now)
    && (x in b.queue && fired ==> b.deadline[x] == now + conf[x].interval && b.serial[x] >= a.next)
    && (x in b.queue && !fired ==> b.deadline[x] == a.deadline[x] && x in a.serial && b.serial[x] == a.serial[x])
  }

  /** The expiry loop fires exactly the expired timers, keeps the others, re-arms the
      periodic ones one interval from now, and leaves none expired. */
  lemma {:induction false} FireSettles(a: Agenda, conf: map<Id, Conf>, now: int, x: Id)
    requires a.Ok() && Configured(a, conf) && Draining(a, conf, now)
    ensures Fire(a, conf, now).Ok() && Configured(Fire(a, conf, now), conf)
    ensures Fire(a, conf, now).next >= a.next
    ensures Settled(a, Fire(a, conf, now), conf, now, x)
    decreases |Front(a.queue, a.deadline, now)|
  {
    if x in a.queue {
      FrontExactly(a, a.queue, now, x);
    }
    if HeadDue(a, now) {
      var t, b := a.queue[0], FireOne(a, conf, now);
      FireOneOk(a, conf, now);
      DisarmHead(a);
      FireOneFront(a, conf, now);
      FireSettles(b, conf, now, x);
      if x == t {
        assert x !in Front(b.queue, b.deadline, now);
      }
    }
  }

  /** The expiry loop cut off after at most `n` turns. */
  ghost function Turns(a: Agenda, conf: map<Id, Conf>, now: int, n: nat): (r: Agenda)
    requires Configured(a, conf)
    decreases n
  {
    if n == 0 || !HeadDue(a, now) then a else Turns(FireOne(a, conf, now), conf, now, n - 1)
  }

  lemma {:induction false} TurnsReachFire(a: Agenda, conf: map<Id, Conf>, now: int)
    requires a.Ok() && Configured(a, conf) && Draining(a, conf, now)
    ensures Turns(a, conf, now, |Front(a.queue, a.deadline, now)|) == Fire(a, conf, now)
    ensures !HeadDue(Fire(a, conf, now), now)
    decreases |Front(a.queue, a.deadline, now)|
  {
    hide FireOne, Arm, Insert, Without;
    if HeadDue(a, now) {
      FireOneOk(a, conf, now);
      DisarmHead(a);
      FireOneFront(a, conf, now);
      TurnsReachFire(FireOne(a, conf, now), conf, now);
    }
  }

  lemma {:induction false} ZeroIntervalSpins(a: Agenda, conf: map<Id, Conf>, now: int, x: Id, n: nat)
    requires a.Ok() && Configured(a, conf)
    requires x in a.queue && a.deadline[x] <= now && conf[x] == Conf(0, true)
    ensures HeadDue(Turns(a, conf, now, n), now)
    decreases n
  {
    assert x == a.queue[0] || x in a.queue[1..];
    if n == 0 {
    } else {
      FireOneOk(a, conf, now);
      ZeroIntervalSpins(FireOne(a, conf, now), conf, now, x, n - 1);
    }
  }

  /** The expiry loop ends if and only if no expired periodic timer has interval zero. */
  lemma CheckEndsIff(a: Agenda, conf: map<Id, Conf>, now: int)
    requires a.Ok() && Configured(a, conf)
    ensures (exists n: nat :: !HeadDue(Turns(a, conf, now, n), now)) <==> Draining(a, conf, now)
  {
    if Draining(a, conf, now) {
      TurnsReachFire(a, conf, now);
    } else {
      var x :| x in Front(a.queue, a.deadline, now) && conf[x] == Conf(0, true);
      forall n: nat ensures HeadDue(Turns(a, conf, now, n), now) {
        ZeroIntervalSpins(a, conf, now, x, n);
      }
    }
  }
}

/** Whole runs of the reference: the steps of starting and stopping, reconfigurations and clock ticks.
    rt_timer_start is three steps, between which anything may happen: it takes the timer out of the list,
    computes when it expires, and puts it in. rt_timer_stop is two: it takes the timer out of the list,
    and clears its flag. */
module TimerRuns {
  import opened Agenda
  import opened Lists
  import Ticks

  /** `lag` bounds the ticks between the last two steps of a start; `stopping` are the timers that are
      out of the list while their flag is still set. */
  datatype Sys = Sys(now: nat, agenda: Agenda, conf: map<Id, Conf>, lag: nat, stopping: set<Id>)

  datatype Op = Withdraw(t: Id) | Date(t: Id) | Enter(t: Id) | Unlink(t: Id) | Clear(t: Id)
              | Configure(t: Id, c: Conf) | Tick

  /** Deadlines that the modular tests can tell apart, whatever the lag. */
  predicate Near(s: Sys, late: nat, d: int) {
    s.now - late <= d < s.now + Ticks.HALF - s.lag
  }

  /** Every active timer expires within half the tick range, or did at most `late` ticks ago. */
  ghost predicate Within(s: Sys, late: nat)
    ensures Within(s, late) ==> Dated(s.agenda.queue, s.agenda.deadline)
  {
    && s.agenda.Ok()
    && Configured(s.agenda, s.conf)
    && forall x :: x in s.agenda.queue ==> Near(s, late, s.agenda.deadline[x]) && x !in s.stopping
  }

  ghost predicate Reachable(s: Sys) {
    s.lag < Ticks.HALF - 1 && Within(s, s.lag)
  }

  /** What the kernel asserts of an operation, less the lag; that nobody else starts the timer between
      the steps of a start, nor of a stop; and that no expiring periodic timer has interval zero. */
  ghost predicate Enabled(s: Sys, op: Op)
    requires Reachable(s)
  {
    match op
    case Withdraw(t) => t in s.conf
    case Date(t) => t in s.conf && t !in s.agenda.queue && s.conf[t].interval + s.lag < Ticks.HALF
    case Enter(t) =>
      && t in s.conf && t !in s.agenda.queue
      && t in s.agenda.deadline && Near(s, s.lag, s.agenda.deadline[t])
    case Unlink(t) => t in s.conf
    case Clear(t) => t in s.conf && t !in s.agenda.queue
    case Configure(t, c) => true
    case Tick =>
      Within(s.(now := s.now + 1), s.lag + 1) && Rearmable(s.(now := s.now + 1))
  }

  function Withdrawn(s: Sys, t: Id): (r: Sys) {
    s.(agenda := Disarm(s.agenda, t), stopping := s.stopping - {t})
  }

  function Unlinked(s: Sys, t: Id): (r: Sys) {
    s.(agenda := Disarm(s.agenda, t), stopping := if t in s.agenda.queue then s.stopping + {t} else s.stopping)
  }

  function NewlyDated(s: Sys, t: Id): (r: Sys)
    requires t in s.conf
  {
    s.(agenda := s.agenda.(deadline := s.agenda.deadline[t := s.now + s.conf[t].interval]))
  }

  function Entered(s: Sys, t: Id): (r: Sys)
    requires Dated(s.agenda.queue, s.agenda.deadline) && t in s.agenda.deadline
  {
    s.(agenda := Arm(s.agenda, t, s.agenda.deadline[t]), stopping := s.stopping - {t})
  }

  ghost function Step(s: Sys, op: Op): (r: Sys)
    requires Reachable(s) && Enabled(s, op)
  {
    match op
    case Withdraw(t) => Withdrawn(s, t)
    case Date(t) => NewlyDated(s, t)
    case Enter(t) => Entered(s, t)
    case Unlink(t) => Unlinked(s, t)
    case Clear(t) => s.(stopping := s.stopping - {t})
    case Configure(t, c) => s.(conf := s.conf[t := c])
    case Tick => FireAll(s.(now := s.now + 1))
  }

  lemma DisarmWithin(s: Sys, t: Id, late: nat)
    requires Within(s, late)
    ensures Within(Withdrawn(s, t), late) && Within(Unlinked(s, t), late)
  {
    DisarmOk(s.agenda, t);
  }

  lemma DateWithin(s: Sys, t: Id, late: nat)
    requires Within(s, late) && t in s.conf && t !in s.agenda.queue
    ensures Within(NewlyDated(s, t), late)
  {
    var a, d := s.agenda, s.now + s.conf[t].interval;
    RedateSorted(a, a.queue, t, d);
    assert a.(deadline := a.deadline[t := d]).Ok();
  }

  lemma EnterWithin(s: Sys, t: Id, late: nat)
    requires Within(s, late) && t in s.conf && t in s.agenda.deadline && Near(s, late, s.agenda.deadline[t])
    ensures Within(Entered(s, t), late)
  {
    ArmOk(s.agenda, t, s.agenda.deadline[t]);
  }

  lemma StepReachable(s: Sys, op: Op)
    requires Reachable(s) && Enabled(s, op)
    ensures Reachable(Step(s, op))
  {
    hide Agenda.Sorted, Within, Arm, Disarm;
    match op
    case Withdraw(t) => DisarmWithin(s, t, s.lag);
    case Date(t) => DateWithin(s, t, s.lag);
    case Enter(t) => EnterWithin(s, t, s.lag);
    case Unlink(t) => DisarmWithin(s, t, s.lag);
    case Clear(t) => FewerStopping(s, t);
    case Configure(t, c) => StillConfigured(s, t, c);
    case Tick => TickReachable(s);
  }

  lemma FewerStopping(s: Sys, t: Id)
    requires Within(s, s.lag)
    ensures Within(s.(stopping := s.stopping - {t}), s.lag)
  {
  }

  lemma StillConfigured(s: Sys, t: Id, c: Conf)
    requires Within(s, s.lag)
    ensures Within(s.(conf := s.conf[t := c]), s.lag)
  {
  }

  /** What the expiry loop needs: every expired periodic timer re-arms into the open window. */
  ghost predicate Rearmable(s: Sys)
    requires Within(s, s.lag + 1)
  {
    forall x :: x in Expired(s) && s.conf[x].periodic ==> 1 <= s.conf[x].interval < Ticks.HALF - s.lag
  }

  lemma FireWithin(s: Sys)
    requires Within(s, s.lag + 1) && Rearmable(s)
    ensures Within(s.(agenda := Fire(s.agenda, s.conf, s.now)), 0)
  {
    var r := s.(agenda := Fire(s.agenda, s.conf, s.now));
    FireSettles(s.agenda, s.conf, s.now, 0);
    forall x | x in r.agenda.queue ensures Near(r, 0, r.agenda.deadline[x]) && x !in r.stopping {
      FireSettles(s.agenda, s.conf, s.now, x);
    }
  }

  /** The expiry loop on a whole system. */
  ghost function FireAll(s: Sys): (r: Sys)
    requires Within(s, s.lag + 1) && Rearmable(s)
    ensures Within(r, 0) && r == s.(agenda := r.agenda)
  {
    FireWithin(s);
    s.(agenda := Fire(s.agenda, s.conf, s.now))
  }

  ghost function Expired(s: Sys): (r: seq<Id>)
    requires Within(s, s.lag + 1)
  {
    Front(s.agenda.queue, s.agenda.deadline, s.now)
  }

  lemma FireAllDone(s: Sys)
    requires Within(s, s.lag + 1) && Rearmable(s) && !HeadDue(s.agenda, s.now)
    ensures FireAll(s) == s && Expired(s) == []
  {
    assert s.agenda.queue != [] ==> s.agenda.queue[0] in s.agenda.queue;
  }

  lemma TickReachable(s: Sys)
    requires Reachable(s) && Enabled(s, Tick)
    ensures Reachable(Step(s, Tick))
  {
    WithinLess(Step(s, Tick), 0, s.lag);
  }

  lemma WithinLess(s: Sys, late: nat, later: nat)
    requires Within(s, late) && late <= later
    ensures Within(s, later)
  {
  }

  ghost predicate AllEnabled(s: Sys, ops: seq<Op>)
    requires Reachable(s)
    decreases |ops|
  {
    ops != [] ==> Enabled(s, ops[0]) && (StepReachable(s, ops[0]); AllEnabled(Step(s, ops[0]), ops[1..]))
  }

  ghost function Run(s: Sys, ops: seq<Op>): (r: Sys)
    requires Reachable(s) && AllEnabled(s, ops)
    ensures Reachable(r)
    decreases |ops|
  {
    if ops == [] then s else StepReachable(s, ops[0]); Run(Step(s, ops[0]), ops[1..])
  }

  /** In every run, putting a timer in compares it with every active timer exactly as the unbounded
      clock does, across any number of wrap-arounds of the tick register. */
  lemma ComparisonsExact(s: Sys, ops: seq<Op>, x: Id, t: Id)
    requires Reachable(s) && AllEnabled(s, ops)
    requires x in Run(s, ops).agenda.queue && Enabled(Run(s, ops), Enter(t))
    ensures var r := Run(s, ops);
            var d := r.agenda.deadline[t];
            && (Ticks.StopsBefore(Ticks.Wrap(r.agenda.deadline[x]), Ticks.Wrap(d)) <==> r.agenda.deadline[x] > d)
            && (Ticks.IsDue(Ticks.Wrap(r.now + 1), Ticks.Wrap(r.agenda.deadline[x])) <==>
                  r.agenda.deadline[x] <= r.now + 1)
  {
    var r := Run(s, ops);
    Ticks.StopsBeforeExact(r.agenda.deadline[x], r.agenda.deadline[t]);
    Ticks.IsDueExact(r.now + 1, r.agenda.deadline[x]);
  }

  /** How many ticks a run takes. */
  function TicksIn(ops: seq<Op>): (n: nat) {
    if ops == [] then 0 else (if ops[0].Tick? then 1 else 0) + TicksIn(ops[1..])
  }

  /** Nobody dates or enters `t`: there is no other start of it. */
  predicate LeavesAlone(ops: seq<Op>, t: Id) {
    forall op :: op in ops ==> op != Date(t) && op != Enter(t)
  }

  lemma {:induction false} FireKeeps(a: Agenda, conf: map<Id, Conf>, now: int, t: Id)
    requires a.Ok() && Configured(a, conf) && Draining(a, conf, now) && t !in a.queue && t in a.deadline
    ensures var b := Fire(a, conf, now); t !in b.queue && t in b.deadline && b.deadline[t] == a.deadline[t]
    decreases |Front(a.queue, a.deadline, now)|
  {
    hide Insert, Without, Agenda.Sorted;
    if HeadDue(a, now) {
      assert a.queue[0] in a.queue;
      FireOneOk(a, conf, now);
      DisarmHead(a);
      FireOneFront(a, conf, now);
      FireKeeps(FireOne(a, conf, now), conf, now, t);
    }
  }

  lemma StepLeaves(s: Sys, op: Op, t: Id)
    requires Reachable(s) && Enabled(s, op) && op != Date(t) && op != Enter(t)
    requires t in s.conf && t !in s.agenda.queue && t in s.agenda.deadline
    ensures var r := Step(s, op);
            && t in r.conf && t !in r.agenda.queue && t in r.agenda.deadline
            && r.agenda.deadline[t] == s.agenda.deadline[t]
            && r.now == s.now + (if op.Tick? then 1 else 0) && r.lag == s.lag
  {
    if op.Tick? {
      FireKeeps(s.agenda, s.conf, s.now + 1, t);
    }
  }

  lemma {:induction false} RunLeaves(s: Sys, ops: seq<Op>, t: Id)
    requires Reachable(s) && AllEnabled(s, ops) && LeavesAlone(ops, t)
    requires t in s.conf && t !in s.agenda.queue && t in s.agenda.deadline
    ensures var r := Run(s, ops);
            && t in r.conf && t !in r.agenda.queue && t in r.agenda.deadline
            && r.agenda.deadline[t] == s.agenda.deadline[t] && r.now == s.now + TicksIn(ops) && r.lag == s.lag
    decreases |ops|
  {
    hide Enabled, Step, Reachable;
    if ops == [] {
    } else {
      assert ops[0] in ops && forall op :: op in ops[1..] ==> op in ops;
      StepReachable(s, ops[0]);
      StepLeaves(s, ops[0], t);
      RunLeaves(Step(s, ops[0]), ops[1..], t);
    }
  }

  /** A start takes effect: whatever happens after the deadline is computed, if nobody else starts the
      timer and no more than `lag` ticks pass, the timer can be put in, with the deadline it was given. */
  lemma StartTakesEffect(s: Sys, t: Id, ops: seq<Op>)
    requires Reachable(s) && Enabled(s, Date(t))
    requires Reachable(Step(s, Date(t))) && AllEnabled(Step(s, Date(t)), ops)
    requires LeavesAlone(ops, t) && TicksIn(ops) <= s.lag
    ensures var r := Run(Step(s, Date(t)), ops);
            && Enabled(r, Enter(t)) && t in Step(r, Enter(t)).agenda.queue
            && Step(r, Enter(t)).agenda.deadline[t] == s.now + s.conf[t].interval
  {
    hide Run, AllEnabled, Agenda.Sorted;
    RunLeaves(Step(s, Date(t)), ops, t);
  }

  /** Entering a timer keeps the list sorted if and only if nobody else has entered it meanwhile. */
  lemma EnterOnceIff(s: Sys, t: Id)
    requires Reachable(s) && t in s.agenda.deadline
    ensures var a := s.agenda;
            var b := Agenda(Insert(a.queue, a.deadline, t), a.deadline, a.serial[t := a.next], a.next + 1);
            b.Ok() <==> t !in a.queue
  {
    var a := s.agenda;
    if t in a.queue {
      InsertTwice(Agenda(Insert(a.queue, a.deadline, t), a.deadline, a.serial[t := a.next], a.next + 1), a.queue, t);
    } else {
      WithoutAbsent(a.queue, t);
      assert a.deadline[t := a.deadline[t]] == a.deadline;
      ArmOk(a, t, a.deadline[t]);
    }
  }

  lemma {:induction false} InsertTwice(b: Agenda, row: seq<Id>, t: Id)
    requires Dated(row, b.deadline) && t in b.deadline && t in row
    ensures !b.Sorted(Insert(row, b.deadline, t))
  {
    var r := Insert(row, b.deadline, t);
    if b.deadline[row[0]] > b.deadline[t] {
      assert r[1..] == row;
    } else {
      assert r[1..] == Insert(row[1..], b.deadline, t);
      if t in row[1..] {
        InsertTwice(b, row[1..], t);
      }
    }
  }

  /** Insertion as the code decides it, on 32-bit ticks. */
  function WrapInsert(row: seq<Id>, deadline: map<Id, int>, t: Id): (r: seq<Id>)
    requires Dated(row, deadline) && t in deadline
  {
    if row == [] || Ticks.StopsBefore(Ticks.Wrap(deadline[row[0]]), Ticks.Wrap(deadline[t])) then [t] + row
    else [row[0]] + WrapInsert(row[1..], deadline, t)
  }

  /** No earlier deadline is too far back, and the next later one is not too far ahead. */
  ghost predicate Placeable(row: seq<Id>, deadline: map<Id, int>, t: Id)
    requires Dated(row, deadline) && t in deadline
  {
    var d := deadline[t];
    && (forall x :: x in row && deadline[x] <= d ==> Ticks.InWindow(deadline[x] - d))
    && ((exists x :: x in row && deadline[x] > d) ==> exists x :: x in row && d < deadline[x] < d + Ticks.HALF)
  }

  lemma PlaceableTail(a: Agenda, row: seq<Id>, t: Id)
    requires a.Sorted(row) && t in a.deadline && row != []
    ensures var h, d := a.deadline[row[0]], a.deadline[t];
            && (h <= d ==>
                (Placeable(row, a.deadline, t) <==> Ticks.InWindow(h - d) && Placeable(row[1..], a.deadline, t)))
            && (h > d ==> (Placeable(row, a.deadline, t) <==> h < d + Ticks.HALF))
  {
    assert row[0] in row && forall x :: x in row <==> x == row[0] || x in row[1..];
    assert forall x :: x in row[1..] ==> a.deadline[row[0]] <= a.deadline[x];
  }

  /** Inserting by the 32-bit tests is plain insertion if and only if the deadline is placeable. */
  lemma {:induction false} WrapInsertIff(a: Agenda, row: seq<Id>, t: Id)
    requires a.Sorted(row) && t !in row && t in a.deadline
    requires forall x :: x in row ==> -Ticks.TICK_RANGE < a.deadline[x] - a.deadline[t] < Ticks.TICK_RANGE
    ensures WrapInsert(row, a.deadline, t) == Insert(row, a.deadline, t) <==> Placeable(row, a.deadline, t)
  {
    if row == [] {
    } else {
      var h := row[0];
      PlaceableTail(a, row, t);
      hide Placeable;
      assert h in row && forall x :: x in row[1..] ==> x in row;
      Ticks.StopsBeforeExact(a.deadline[h], a.deadline[t]);
      WrapInsertIff(a, row[1..], t);
      assert ([t] + row)[0] == t && ([h] + WrapInsert(row[1..], a.deadline, t))[0] == h;
      assert ([h] + WrapInsert(row[1..], a.deadline, t))[1..] == WrapInsert(row[1..], a.deadline, t);
      assert ([h] + Insert(row[1..], a.deadline, t))[1..] == Insert(row[1..], a.deadline, t);
    }
  }

  /** With the interval the kernel allows and one tick between its steps, a start may put a timer that is
      due behind one that is not: timer 2 is dated 0 at tick 0, timer 1 is started at tick 1. */
  lemma DelayMisplaces()
    ensures var deadline := map[1 := 1 + (Ticks.HALF - 1), 2 := 0];
            && WrapInsert([1], deadline, 2) == [1, 2] && Insert([1], deadline, 2) == [2, 1]
  {
    var deadline := map[1 := 1 + (Ticks.HALF - 1), 2 := 0];
    assert Insert([], deadline, 2) == [2] == WrapInsert([], deadline, 2);
    Ticks.SubWrap(Ticks.HALF, 0);
  }
}

/** The skip list of src/timer.c: `rows[0]` is the sparsest row, the last row holds every active timer. */
module SkipList {
  import opened Lists
  import opened Agenda

  ghost predicate Tower(a: Agenda, rows: seq<seq<Id>>)
    ensures Tower(a, rows) ==> rows != []
  {
    && rows != []
    && rows[|rows| - 1] == a.queue
    && (forall k :: 0 <= k < |rows| ==> a.Sorted(rows[k]))
    && (forall k, m, x :: 0 <= k < m < |rows| && x in rows[k] ==> x in rows[m])
  }

  /** Each row of a tower is a subsequence of the row below it. */
  lemma TowerRows(a: Agenda, rows: seq<seq<Id>>, k: nat)
    requires Tower(a, rows) && k + 1 < |rows|
    ensures Subsequence(rows[k], rows[k + 1])
  {
    SortedSubsequence(a, rows[k], rows[k + 1]);
  }

  lemma TowerHead(a: Agenda, rows: seq<seq<Id>>)
    requires Tower(a, rows)
    ensures rows[|rows| - 1] == a.queue
  {
  }

  lemma TowerDescends(a: Agenda, rows: seq<seq<Id>>, k: nat, x: Id)
    requires Tower(a, rows) && k + 1 < |rows| && x in rows[k]
    ensures x in rows[k + 1]
  {
  }

  function Drop(rows: seq<seq<Id>>, t: Id): (r: seq<seq<Id>>)
    ensures |r| == |rows|
  {
    seq(|rows|, k requires 0 <= k < |rows| => Without(rows[k], t))
  }

  lemma TowerDrop(a: Agenda, rows: seq<seq<Id>>, t: Id)
    requires Tower(a, rows)
    ensures Tower(Disarm(a, t), Drop(rows, t))
  {
    DisarmOk(a, t);
    forall k | 0 <= k < |rows| ensures Disarm(a, t).Sorted(Without(rows[k], t)) {
      WithoutSorted(a, rows[k], t);
      SortedSame(a, Disarm(a, t), Without(rows[k], t));
    }
  }

  /** The bottom row and the `extra` rows above it take the timer, the others do not. */
  ghost function Raise(rows: seq<seq<Id>>, extra: nat, deadline: map<Id, int>, t: Id): (r: seq<seq<Id>>)
    requires t in deadline && forall k :: 0 <= k < |rows| ==> Dated(rows[k], deadline)
    ensures |r| == |rows|
  {
    seq(|rows|, k requires 0 <= k < |rows| =>
      if k + extra + 1 >= |rows| then Insert(rows[k], deadline, t) else rows[k])
  }

  /** Whatever the height, the raised tower stands on plain sorted insertion. */
  lemma TowerRaise(a: Agenda, rows: seq<seq<Id>>, extra: nat, t: Id, d: int)
    requires Tower(a, rows) && t !in a.queue
    requires forall k :: 0 <= k < |rows| ==> t !in rows[k]
    ensures Tower(Arm(a, t, d), Raise(rows, extra, a.deadline[t := d], t))
  {
    var b, dl := Arm(a, t, d), a.deadline[t := d];
    var r := Raise(rows, extra, dl, t);
    WithoutAbsent(a.queue, t);
    forall k | 0 <= k < |rows| ensures b.Sorted(r[k]) {
      InsertSorted(a, rows[k], t, d);
      StaysSorted(a, rows[k], t, d);
      SortedSame(Arm(a.(queue := []), t, d), b, r[k]);
    }
    forall k, m, x | 0 <= k < m < |r| && x in r[k] ensures x in r[m] {
      assert x in rows[k] || (x == t && k + extra + 1 >= |rows|);
    }
  }

  /** The deadline of a timer that is in no row may change. */
  lemma TowerRedate(a: Agenda, rows: seq<seq<Id>>, t: Id, d: int)
    requires Tower(a, rows) && t !in a.queue
    ensures Tower(a.(deadline := a.deadline[t := d]), rows)
  {
    forall k | 0 <= k < |rows| ensures a.(deadline := a.deadline[t := d]).Sorted(rows[k]) {
      assert forall x :: x in rows[k] ==> x in rows[|rows| - 1];
      RedateSorted(a, rows[k], t, d);
    }
  }

  /** A list position: the row header, or behind a timer. */
  datatype Node = Head | At(id: Id)

  function IndexOf(row: seq<Id>, x: Id): (i: nat)
    requires x in row
    ensures i < |row| && row[i] == x
  {
    if row[0] == x then 0 else 1 + IndexOf(row[1..], x)
  }

  function InsertAfter(row: seq<Id>, n: Node, t: Id): (r: seq<Id>)
    requires n.At? ==> n.id in row
  {
    if n.Head? then [t] + row
    else var i := IndexOf(row, n.id) + 1; row[..i] + [t] + row[i..]
  }

  ghost predicate Fits(row: seq<Id>, n: Node, deadline: map<Id, int>, t: Id) {
    && (n.At? ==> n.id in row)
    && Dated(row, deadline)
    && t in deadline
    && InsertAfter(row, n, t) == Insert(row, deadline, t)
  }

  /** The scan's stopping condition pins down the insertion point. */
  lemma {:induction false} InsertAt(row: seq<Id>, deadline: map<Id, int>, t: Id, p: nat)
    requires Dated(row, deadline) && t in deadline && p <= |row|
    requires forall i :: 0 <= i < p ==> deadline[row[i]] <= deadline[t]
    requires p < |row| ==> deadline[row[p]] > deadline[t]
    ensures Insert(row, deadline, t) == row[..p] + [t] + row[p..]
  {
    if p == 0 {
      assert row[..0] == [] && row[0..] == row;
    } else {
      InsertAt(row[1..], deadline, t, p - 1);
      assert Insert(row, deadline, t) == [row[0]] + Insert(row[1..], deadline, t);
      hide Insert;
      CutAgain(row, t, p);
    }
  }

  lemma CutAgain(row: seq<Id>, t: Id, p: nat)
    requires 0 < p <= |row|
    ensures [row[0]] + (row[1..][..p - 1] + [t] + row[1..][p - 1..]) == row[..p] + [t] + row[p..]
  {
    assert row[..p] == [row[0]] + row[1..][..p - 1];
    assert row[p..] == row[1..][p - 1..];
  }

  lemma {:induction false} EarlierInFront(a: Agenda, row: seq<Id>, i: nat, j: nat)
    requires a.Sorted(row) && i <= j < |row|
    ensures row[i] in row && row[j] in row && a.deadline[row[i]] <= a.deadline[row[j]]
  {
    if i > 0 {
      EarlierInFront(a, row[1..], i - 1, j - 1);
    } else if j > 0 {
      assert row[1..][j - 1] in row[1..];
    }
  }

  lemma {:induction false} IndexInSorted(a: Agenda, row: seq<Id>, i: nat)
    requires a.Sorted(row) && i < |row|
    ensures IndexOf(row, row[i]) == i
  {
    if i == 0 {
    } else {
      assert row[i] == row[1..][i - 1] && row[i] in row[1..];
      IndexInSorted(a, row[1..], i - 1);
    }
  }
}

/** src/timer.c: the hard timer list, its tick register and its insert counter. */
module TimerSystem {
  import opened Lists
  import opened Agenda
  import opened SkipList
  import opened TimerRuns
  import opened Ticks

  datatype Timer = Timer(timeoutTick: int, initTick: nat, active: bool, periodic: bool)

  /** How many rows above the bottom one the insert counter selects. */
  function Height(counter: nat, mask: nat, room: nat): (h: nat)
    ensures h <= room
    decreases room
  {
    if room == 0 || counter % (mask + 1) != 0 then 0 else 1 + Height(counter / (mask + 1), mask, room - 1)
  }

  function Power(b: nat, k: nat): (p: nat) {
    if k == 0 then 1 else b * Power(b, k - 1)
  }

  ghost predicate Divides(d: nat, n: nat) {
    exists q: nat :: n == d * q
  }

  /** A timer enters `k` rows above the bottom one if and only if the counter is a multiple of that power. */
  lemma {:induction false} HeightIff(counter: nat, mask: nat, room: nat, k: nat)
    requires k <= room
    ensures Height(counter, mask, room) >= k <==> Divides(Power(mask + 1, k), counter)
    decreases k
  {
    if k == 0 {
      assert counter == 1 * counter;
    } else {
      HeightIff(counter / (mask + 1), mask, room - 1, k - 1);
      DividesTwice(mask + 1, Power(mask + 1, k - 1), counter);
    }
  }

  lemma DividesTwice(b: nat, d: nat, n: nat)
    requires b > 0
    ensures Divides(b * d, n) <==> n % b == 0 && Divides(d, n / b)
  {
    if Divides(b * d, n) {
      var q: nat :| n == b * d * q;
      Quotient(b, d * q, n);
      assert n / b == d * q;
    }
    if n % b == 0 && Divides(d, n / b) {
      var q: nat :| n / b == d * q;
      assert n == b * (n / b);
      assert n == b * d * q;
    }
  }

  lemma Quotient(b: nat, x: nat, n: nat)
    requires b > 0 && n == b * x
    ensures n / b == x && n % b == 0
  {
    SameQuotient(b, x, n / b, n % b);
  }

  lemma SameQuotient(b: int, x: int, q: int, r: int)
    requires 0 <= r < b && b * x == b * q + r
    ensures q == x && r == 0
  {
    Multiples(b, x - q);
    assert r == b * (x - q);
  }

  lemma Multiples(b: int, d: int)
    requires b > 0
    ensures d >= 1 ==> b * d >= b
    ensures d <= -1 ==> b * d <= -b
  {
  }

  ghost predicate Agreement(timers: map<Id, Timer>, s: Sys)
    ensures Agreement(timers, s) ==>
              && timers.Keys == s.conf.Keys
              && forall t :: t in timers ==>
                   && s.conf[t] == Conf(timers[t].initTick, timers[t].periodic)
                   && (timers[t].active <==> t in s.agenda.queue || t in s.stopping)
  {
    && timers.Keys == s.conf.Keys && s.stopping <= timers.Keys
    && (forall t :: t in timers ==>
          && s.conf[t] == Conf(timers[t].initTick, timers[t].periodic)
          && (timers[t].active <==> t in s.agenda.queue || t in s.stopping))
    && forall t :: t in s.agenda.deadline ==> t in timers && timers[t].timeoutTick == Wrap(s.agenda.deadline[t])
  }

  function Started(timers: map<Id, Timer>, t: Id, tick: int): (r: map<Id, Timer>)
    requires t in timers
  {
    timers[t := timers[t].(timeoutTick := Wrap(tick + timers[t].initTick), active := true)]
  }

  /** All three steps of a start. */
  ghost function Armed(s: Sys, t: Id): (r: Sys)
    requires t in s.conf && Dated(s.agenda.queue, s.agenda.deadline)
  {
    Entered(NewlyDated(Withdrawn(s, t), t), t)
  }

  lemma ArmedArms(s: Sys, t: Id)
    requires t in s.conf && Dated(s.agenda.queue, s.agenda.deadline)
    ensures Armed(s, t).agenda == Arm(s.agenda, t, s.now + s.conf[t].interval)
    ensures Armed(s, t) == s.(agenda := Armed(s, t).agenda, stopping := s.stopping - {t})
  {
    WithoutAbsent(Without(s.agenda.queue, t), t);
    var d := s.now + s.conf[t].interval;
    assert s.agenda.deadline[t := d][t := d] == s.agenda.deadline[t := d];
  }

  lemma StartedSteps(timers: map<Id, Timer>, t: Id, tick: int)
    requires t in timers
    ensures var a := timers[t := timers[t].(active := false)];
            var b := a[t := a[t].(timeoutTick := Wrap(tick + a[t].initTick))];
            b[t := b[t].(active := true)] == Started(timers, t, tick)
  {
  }

  lemma StartSteps(s: Sys, t: Id)
    requires t in s.conf && s.conf[t].interval + s.lag < HALF
    ensures var u := Withdrawn(s, t);
            && u.conf == s.conf && u.lag == s.lag && u.now == s.now && t !in u.agenda.queue
            && var v := NewlyDated(u, t);
               && v.conf == s.conf && v.lag == s.lag && t !in v.agenda.queue
               && t in v.agenda.deadline && Near(v, v.lag, v.agenda.deadline[t])
  {
  }

  lemma DatedAgrees(timers: map<Id, Timer>, s: Sys, t: Id)
    requires Agreement(timers, s) && t in timers
    ensures Agreement(timers[t := timers[t].(timeoutTick := Wrap(Wrap(s.now) + timers[t].initTick))], NewlyDated(s, t))
  {
    WrapAdd(s.now, timers[t].initTick);
  }

  lemma EnteredAgrees(timers: map<Id, Timer>, s: Sys, t: Id)
    requires Agreement(timers, s) && Dated(s.agenda.queue, s.agenda.deadline) && t in timers && t in s.agenda.deadline
    ensures Agreement(timers[t := timers[t].(active := true)], Entered(s, t))
  {
  }

  /** What the row search may rely on about the timers of a row. */
  ghost predicate Comparable(timers: map<Id, Timer>, row: seq<Id>, deadline: map<Id, int>, d: int) {
    forall x :: x in row ==>
      && x in timers
      && x in deadline
      && timers[x].timeoutTick == Wrap(deadline[x])
      && InWindow(deadline[x] - d)
  }

  lemma RowComparable(timers: map<Id, Timer>, a: Agenda, rows: seq<seq<Id>>, k: nat, t: Id, d: int)
    requires Tower(a, rows) && t !in a.queue && Comparable(timers, a.queue, a.deadline, d) && k < |rows|
    ensures a.Sorted(rows[k]) && t !in rows[k] && Comparable(timers, rows[k], a.deadline, d)
  {
    assert forall x :: x in rows[k] ==> x in rows[|rows| - 1];
  }

  lemma EnterComparable(timers: map<Id, Timer>, s: Sys, t: Id, late: nat)
    requires Agreement(timers, s) && Within(s, late) && late <= s.lag + 1
    requires t in s.agenda.deadline && Near(s, s.lag, s.agenda.deadline[t])
    ensures Comparable(timers, s.agenda.queue, s.agenda.deadline, s.agenda.deadline[t])
    ensures t in timers && timers[t].timeoutTick == Wrap(s.agenda.deadline[t])
  {
  }

  lemma EnterTower(a: Agenda, rows: seq<seq<Id>>, extra: nat, t: Id)
    requires Tower(a, rows) && t !in a.queue && t in a.deadline
    ensures a.deadline[t := a.deadline[t]] == a.deadline
    ensures forall k :: 0 <= k < |rows| ==> Dated(rows[k], a.deadline)
    ensures Tower(Arm(a, t, a.deadline[t]), Raise(rows, extra, a.deadline, t))
  {
    forall k | 0 <= k < |rows| ensures t !in rows[k] {
      assert forall x :: x in rows[k] ==> x in rows[|rows| - 1];
    }
    assert a.deadline[t := a.deadline[t]] == a.deadline;
    TowerRaise(a, rows, extra, t, a.deadline[t]);
  }

  lemma DueExact(timers: map<Id, Timer>, s: Sys, t: Id)
    requires Agreement(timers, s) && Within(s, s.lag + 1) && s.lag < HALF - 1 && t in s.agenda.queue
    ensures t in timers && (IsDue(Wrap(s.now), timers[t].timeoutTick) <==> s.agenda.deadline[t] <= s.now)
  {
    IsDueExact(s.now, s.agenda.deadline[t]);
  }

  /** What one turn of the expiry loop does to the system. */
  lemma TurnStep(s: Sys)
    requires Within(s, s.lag + 1) && Rearmable(s) && HeadDue(s.agenda, s.now)
    ensures var t := s.agenda.queue[0];
            var r := s.(agenda := FireOne(s.agenda, s.conf, s.now));
            && t in s.conf
            && r == (if s.conf[t].periodic then Armed(Withdrawn(s, t), t) else Withdrawn(s, t))
            && (s.conf[t].periodic ==> 1 <= s.conf[t].interval < HALF - s.lag)
            && Within(r, s.lag + 1)
  {
    var t := s.agenda.queue[0];
    assert t in s.agenda.queue && t in Expired(s);
    assert s.stopping - {t} == s.stopping;
    hide Agenda.Sorted, Insert, Without, Rearmable, Expired, Front;
    TurnWithin(s);
    hide Within;
    ArmedArms(Withdrawn(s, t), t);
  }

  lemma TurnWithin(s: Sys)
    requires Within(s, s.lag + 1) && HeadDue(s.agenda, s.now)
    requires s.conf[s.agenda.queue[0]].periodic ==> s.conf[s.agenda.queue[0]].interval < HALF - s.lag
    ensures Within(s.(agenda := FireOne(s.agenda, s.conf, s.now)), s.lag + 1)
  {
    hide Agenda.Sorted;
    assert s.agenda.queue[0] in s.agenda.queue;
    FireOneOk(s.agenda, s.conf, s.now);
  }

  /** What one turn leaves to be done by the rest of the loop. */
  lemma TurnRest(s: Sys)
    requires Within(s, s.lag + 1) && Rearmable(s) && HeadDue(s.agenda, s.now)
    ensures var r := s.(agenda := FireOne(s.agenda, s.conf, s.now));
            && Within(r, r.lag + 1)
            && Expired(s) == [s.agenda.queue[0]] + Expired(r)
            && Rearmable(r)
            && FireAll(s) == FireAll(r)
  {
    TurnStep(s);
    DisarmHead(s.agenda);
    FireOneFront(s.agenda, s.conf, s.now);
  }

  /** Both steps of a stop. */
  lemma StopSteps(s: Sys, t: Id)
    ensures t !in Unlinked(s, t).agenda.queue
    ensures var u := Unlinked(s, t); u.(stopping := u.stopping - {t}) == Withdrawn(s, t)
    ensures t !in s.agenda.queue && t !in s.stopping ==> Withdrawn(s, t) == s
  {
    if t !in s.agenda.queue {
      WithoutAbsent(s.agenda.queue, t);
    }
  }

  lemma WithdrawnAgrees(timers: map<Id, Timer>, s: Sys, t: Id)
    requires Agreement(timers, s) && t in timers
    ensures Agreement(timers[t := timers[t].(active := false)], Withdrawn(s, t))
    ensures Agreement(timers, Unlinked(s, t))
  {
  }

  /** Clearing the flag of a timer that was taken out of the list keeps flags and list in agreement if
      and only if nobody has started the timer meanwhile. */
  lemma ClearedAgreesIff(timers: map<Id, Timer>, s: Sys, t: Id)
    requires Agreement(timers, s) && t in timers
    ensures Agreement(timers[t := timers[t].(active := false)], s.(stopping := s.stopping - {t})) <==>
            t !in s.agenda.queue
  {
  }

  /** Where the scan of a row stops is where plain insertion puts the timer. */
  lemma ScanEnd(a: Agenda, row: seq<Id>, t: Id, d: int, p: nat)
    requires a.Sorted(row) && t !in row && p <= |row|
    requires forall i :: 0 <= i < p ==> row[i] in a.deadline && a.deadline[row[i]] <= d
    requires p < |row| ==> row[p] in a.deadline && a.deadline[row[p]] > d
    ensures Fits(row, if p == 0 then Head else At(row[p - 1]), a.deadline[t := d], t)
  {
    hide Insert, InsertAfter, Fits, Agenda.Sorted;
    var dl := a.deadline[t := d];
    assert Dated(row, dl);
    hide Dated;
    InsertAt(row, dl, t, p);
    if p == 0 {
      FitsFirst(row, dl, t);
    } else {
      IndexInSorted(a, row, p - 1);
      FitsAfter(row, dl, t, p);
    }
  }

  lemma FitsFirst(row: seq<Id>, deadline: map<Id, int>, t: Id)
    requires Dated(row, deadline) && t in deadline && Insert(row, deadline, t) == row[..0] + [t] + row[0..]
    ensures Fits(row, Head, deadline, t)
  {
    hide Insert, Dated;
    assert row[..0] + [t] + row[0..] == [t] + row;
  }

  lemma FitsAfter(row: seq<Id>, deadline: map<Id, int>, t: Id, p: nat)
    requires Dated(row, deadline) && t in deadline && 0 < p <= |row| && IndexOf(row, row[p - 1]) == p - 1
    requires Insert(row, deadline, t) == row[..p] + [t] + row[p..]
    ensures Fits(row, At(row[p - 1]), deadline, t)
  {
    hide Insert, Dated;
  }

  class TimerList {
    const levels: nat
    const mask: nat
    var rows: seq<seq<Id>>
    var timers: map<Id, Timer>
    var randomNr: nat
    var tick: int
    /** The reference system that these fields represent. */
    ghost var sys: Sys

    ghost predicate Represents(late: nat)
      reads this
    {
      && levels == |rows| && sys.lag < HALF - 1
      && (mask == 1 || mask == 3)
      && tick == Wrap(sys.now)
      && Within(sys, late)
      && Tower(sys.agenda, rows)
      && Agreement(timers, sys)
    }

    ghost predicate Valid()
      reads this
    {
      Represents(sys.lag)
    }

    /** `lag` is as long as other code may hold up a start between its last two steps. */
    constructor (levels: nat, mask: nat, ghost lag: nat)
      requires levels >= 1 && (mask == 1 || mask == 3) && lag < HALF - 1
      ensures Valid()
      ensures sys == Sys(0, Agenda([], map[], map[], 0), map[], lag, {})
    {
      this.levels, this.mask := levels, mask;
      rows := seq(levels, _ => []);
      timers, randomNr, tick := map[], 0, 0;
      sys := Sys(0, Agenda([], map[], map[], 0), map[], lag, {});
    }

    /** `_rt_timer_remove`: unlink the timer from every row. */
    method Remove(t: Id)
      modifies this`rows
      ensures rows == Drop(old(rows), t)
    {
      var i := 0;
      while i < |rows|
        invariant 0 <= i <= |rows| == |old(rows)|
        invariant forall k :: 0 <= k < i ==> rows[k] == Without(old(rows)[k], t)
        invariant forall k :: i <= k < |rows| ==> rows[k] == old(rows)[k]
      {
        rows := rows[i := Without(rows[i], t)];
        i := i + 1;
      }
    }

    /** The inner search loop of `rt_timer_start` on one row. */
    method Scan(row: seq<Id>, from: Node, timeout: int, ghost a: Agenda, ghost t: Id, ghost d: int)
      returns (at: Node)
      requires a.Sorted(row) && t !in row && timeout == Wrap(d)
      requires from.At? ==> from.id in row && from.id in a.deadline && a.deadline[from.id] <= d
      requires Comparable(timers, row, a.deadline, d)
      ensures at.At? ==> at.id in row && at.id in a.deadline && a.deadline[at.id] <= d
      ensures Fits(row, at, a.deadline[t := d], t)
    {
      hide Fits, Insert, InsertAfter;
      var p := 0;
      if from.At? {
        p := IndexOf(row, from.id) + 1;
        forall i | 0 <= i < p ensures row[i] in a.deadline && a.deadline[row[i]] <= d {
          EarlierInFront(a, row, i, p - 1);
        }
      }
      while p != |row|
        invariant p <= |row|
        invariant forall i :: 0 <= i < p ==> row[i] in a.deadline && a.deadline[row[i]] <= d
      {
        var x := row[p];
        assert x in row;
        StopsBeforeExact(a.deadline[x], d);
        SubWrap(a.deadline[x], d);
        if Sub(timers[x].timeoutTick, timeout) == 0 {
          p := p + 1;
          continue;
        } else if Sub(timers[x].timeoutTick, timeout) < HALF {
          break;
        }
        p := p + 1;
      }
      at := if p == 0 then Head else At(row[p - 1]);
      ScanEnd(a, row, t, d, p);
    }

    /** The search of `rt_timer_start`: one insertion point per row, each search starting
        below the point found in the row above. */
    method FindRowHeads(timeout: int, ghost a: Agenda, ghost t: Id, ghost d: int) returns (rowHead: seq<Node>)
      requires Tower(a, rows) && t !in a.queue && timeout == Wrap(d)
      requires Comparable(timers, a.queue, a.deadline, d)
      ensures |rowHead| == |rows|
      ensures forall k :: 0 <= k < |rows| ==> Fits(rows[k], rowHead[k], a.deadline[t := d], t)
    {
      hide Tower, Comparable, Fits;
      rowHead := [];
      var node := Head;
      var level := 0;
      while level < |rows|
        invariant 0 <= level <= |rows| && |rowHead| == level
        invariant node.At? && level < |rows| ==>
                    node.id in rows[level] && node.id in a.deadline && a.deadline[node.id] <= d
        invariant forall k :: 0 <= k < level ==> Fits(rows[k], rowHead[k], a.deadline[t := d], t)
      {
        RowComparable(timers, a, rows, level, t, d);
        node := Scan(rows[level], node, timeout, a, t, d);
        if node.At? && level + 1 < |rows| {
          TowerDescends(a, rows, level, node.id);
        }
        rowHead := rowHead + [node];
        level := level + 1;
      }
    }

    /** The insertion of `rt_timer_start`: the bottom row always, rows above it by the insert counter. */
    method Link(rowHead: seq<Node>, t: Id, ghost deadline: map<Id, int>)
      requires rows != [] && |rowHead| == |rows| && t in deadline
      requires forall k :: 0 <= k < |rows| ==> Dated(rows[k], deadline) && Fits(rows[k], rowHead[k], deadline, t)
      modifies this`rows, this`randomNr
      ensures randomNr == Wrap(old(randomNr) + 1)
      ensures rows == Raise(old(rows), Height(randomNr, mask, |old(rows)| - 1), deadline, t)
    {
      hide Insert, InsertAfter, Dated;
      var levels := |rows|;
      randomNr := Wrap(randomNr + 1);
      var tst := randomNr;
      rows := rows[levels - 1 := InsertAfter(rows[levels - 1], rowHead[levels - 1], t)];
      var level := 2;
      ghost var extra := Height(tst, mask, levels - 1);
      while level <= levels
        invariant 2 <= level <= levels + 1 && |rows| == levels && tst >= 0
        invariant randomNr == Wrap(old(randomNr) + 1)
        invariant extra == level - 2 + Height(tst, mask, levels + 1 - level)
        invariant forall k :: 0 <= k < levels + 1 - level ==> rows[k] == old(rows)[k]
        invariant forall k :: levels + 1 - level <= k < levels ==> rows[k] == Insert(old(rows)[k], deadline, t)
      {
        if tst % (mask + 1) == 0 {
          rows := rows[levels - level := InsertAfter(rows[levels - level], rowHead[levels - level], t)];
        } else {
          break;
        }
        tst := tst / (mask + 1);
        level := level + 1;
      }
    }

    /** The second half of `rt_timer_start`: put a timer that is in no row into its place in the rows. */
    method Enlist(t: Id, timeout: int, ghost a: Agenda, ghost d: int)
      requires Tower(a, rows) && t !in a.queue && timeout == Wrap(d)
      requires forall k :: 0 <= k < |rows| ==> Dated(rows[k], a.deadline[t := d])
      requires Comparable(timers, a.queue, a.deadline, d)
      modifies this`rows, this`randomNr
      ensures randomNr == Wrap(old(randomNr) + 1)
      ensures rows == Raise(old(rows), Height(randomNr, mask, |old(rows)| - 1), a.deadline[t := d], t)
    {
      hide Tower, Comparable, Fits, Dated, Raise, Height;
      var rowHead := FindRowHeads(timeout, a, t, d);
      Link(rowHead, t, a.deadline[t := d]);
    }

    /** The first section of `rt_timer_start`, and what the expiry loop does with a timer: out of the
        list, flag cleared. */
    method Withdraw(t: Id, ghost late: nat)
      requires Represents(late) && t in timers
      modifies this
      ensures Represents(late) && sys == Withdrawn(old(sys), t)
      ensures timers == old(timers)[t := old(timers[t]).(active := false)]
      ensures rows == Drop(old(rows), t) && tick == old(tick) && randomNr == old(randomNr)
    {
      hide Tower, Agreement, Within, Drop;
      WithdrawnAgrees(timers, sys, t);
      DisarmWithin(sys, t, late);
      TowerDrop(sys.agenda, rows, t);
      Remove(t);
      timers := timers[t := timers[t].(active := false)];
      sys := Withdrawn(sys, t);
    }

    /** What `rt_timer_start` does between its sections: with interrupts enabled, compute the timeout. */
    method Date(t: Id, ghost late: nat)
      requires Represents(late) && t in timers && timers[t].initTick + sys.lag < HALF && t !in sys.agenda.queue
      modifies this`timers, this`sys
      ensures Represents(late) && sys == NewlyDated(old(sys), t)
      ensures timers == old(timers)[t := old(timers[t]).(timeoutTick := Wrap(tick + old(timers[t].initTick)))]
    {
      hide Tower, Agreement, Within;
      DatedAgrees(timers, sys, t);
      DateWithin(sys, t, late);
      TowerRedate(sys.agenda, rows, t, sys.now + timers[t].initTick);
      timers := timers[t := timers[t].(timeoutTick := Wrap(tick + timers[t].initTick))];
      sys := NewlyDated(sys, t);
    }

    /** The second section of `rt_timer_start`: into its place in the list, flag set. */
    method Enter(t: Id, ghost late: nat)
      requires Represents(late) && sys.lag <= late <= sys.lag + 1
      requires t in timers && t !in sys.agenda.queue && t in sys.agenda.deadline
      requires Near(sys, sys.lag, sys.agenda.deadline[t])
      modifies this
      ensures Represents(late) && sys == Entered(old(sys), t)
      ensures timers == old(timers)[t := old(timers[t]).(active := true)]
      ensures tick == old(tick) && randomNr == Wrap(old(randomNr) + 1)
      ensures forall k :: 0 <= k < |old(rows)| ==> Dated(old(rows)[k], sys.agenda.deadline)
      ensures rows == Raise(old(rows), Height(randomNr, mask, levels - 1), sys.agenda.deadline, t)
    {
      hide Tower, Agreement, Within, Comparable, Dated, Raise, Height, Insert, Without;
      ghost var a := sys.agenda;
      EnteredAgrees(timers, sys, t);
      EnterWithin(sys, t, late);
      EnterComparable(timers, sys, t, late);
      EnterTower(a, rows, Height(Wrap(randomNr + 1), mask, levels - 1), t);
      Enlist(t, timers[t].timeoutTick, a, a.deadline[t]);
      timers := timers[t := timers[t].(active := true)];
      sys := Entered(sys, t);
    }

    /** `rt_timer_start`, when nothing comes between its steps. */
    method Start(t: Id, ghost late: nat)
      requires Represents(late) && sys.lag <= late <= sys.lag + 1
      requires t in timers && timers[t].initTick + sys.lag < HALF
      modifies this
      ensures Represents(late)
      ensures sys == Armed(old(sys), t) && sys.agenda == Arm(old(sys.agenda), t, old(sys.now) + old(timers[t].initTick))
      ensures timers == Started(old(timers), t, tick)
      ensures tick == old(tick) && randomNr == Wrap(old(randomNr) + 1)
      ensures forall k :: 0 <= k < |old(rows)| ==> Dated(Drop(old(rows), t)[k], sys.agenda.deadline)
      ensures rows == Raise(Drop(old(rows), t), Height(randomNr, mask, levels - 1), sys.agenda.deadline, t)
    {
      hide Tower, Agreement, Within, Dated, Drop, Raise, Height, Insert, Arm;
      ArmedArms(sys, t);
      StartSteps(sys, t);
      StartedSteps(timers, t, tick);
      hide Withdrawn, NewlyDated, Entered, Near, Started;
      Withdraw(t, late);
      Date(t, late);
      Enter(t, late);
    }

    /** The section of `rt_timer_stop`. The flag of the timer is still set. */
    method Unlink(t: Id)
      requires Valid() && t in timers
      modifies this`rows, this`sys
      ensures Valid() && sys == Step(old(sys), TimerRuns.Unlink(t))
      ensures rows == Drop(old(rows), t)
    {
      hide Tower, Agreement, Within, Drop;
      WithdrawnAgrees(timers, sys, t);
      DisarmWithin(sys, t, sys.lag);
      TowerDrop(sys.agenda, rows, t);
      Remove(t);
      sys := Unlinked(sys, t);
    }

    /** The end of `rt_timer_stop`, with interrupts enabled. */
    method Clear(t: Id)
      requires Valid() && t in timers && t !in sys.agenda.queue
      modifies this`timers, this`sys
      ensures Valid() && sys == Step(old(sys), TimerRuns.Clear(t))
      ensures timers == old(timers)[t := old(timers[t]).(active := false)]
    {
      hide Tower, Agreement, Within;
      ClearedAgreesIff(timers, sys, t);
      FewerStopping(sys, t);
      timers := timers[t := timers[t].(active := false)];
      sys := sys.(stopping := sys.stopping - {t});
    }

    /** `rt_timer_stop`, when nothing comes between its steps: false stands for `-RT_ERROR`. */
    method Stop(t: Id) returns (ok: bool)
      requires Valid() && t in timers
      modifies this
      ensures Valid()
      ensures ok == old(timers[t].active) == (t in old(sys.agenda.queue) || t in old(sys.stopping))
      ensures sys == Withdrawn(old(sys), t)
      ensures !ok ==> rows == old(rows) && timers == old(timers)
      ensures ok ==> timers == old(timers)[t := old(timers[t]).(active := false)] && rows == Drop(old(rows), t)
    {
      hide Tower, Agreement, Within, Drop;
      StopSteps(sys, t);
      if !timers[t].active {
        return false;
      }
      Unlink(t);
      Clear(t);
      return true;
    }

    /** `rt_timer_list_next_timeout`. */
    method NextTimeout() returns (next: int)
      requires Valid()
      ensures sys.agenda.queue == [] ==> next == TICK_MAX
      ensures sys.agenda.queue != [] ==>
                && next == Wrap(sys.agenda.deadline[sys.agenda.queue[0]])
                && forall x ::
                      x in sys.agenda.queue ==> sys.agenda.deadline[sys.agenda.queue[0]] <= sys.agenda.deadline[x]
    {
      if |rows[levels - 1]| == 0 {
        return TICK_MAX;
      }
      next := timers[rows[levels - 1][0]].timeoutTick;
      assert forall x :: x in sys.agenda.queue ==> x == sys.agenda.queue[0] || x in sys.agenda.queue[1..];
    }

    /** The loop of `rt_timer_check`, with callbacks that do not touch the timers. */
    method Check() returns (fired: seq<Id>)
      requires Represents(sys.lag + 1) && Rearmable(sys)
      modifies this
      ensures Valid()
      ensures sys == FireAll(old(sys)) && fired == Expired(old(sys))
      ensures tick == old(tick)
    {
      hide Tower, Agreement, Within, Rearmable, FireAll, Expired, Raise, Drop, Height, Insert, Without;
      ghost var s0 := sys;
      fired := [];
      while |rows[levels - 1]| != 0
        invariant Represents(sys.lag + 1) && Rearmable(sys) && tick == old(tick)
        invariant FireAll(sys) == FireAll(s0) && Expired(s0) == fired + Expired(sys)
        decreases |Expired(sys)|
      {
        var t := rows[levels - 1][0];
        TowerHead(sys.agenda, rows);
        DueExact(timers, sys, t);
        if IsDue(tick, timers[t].timeoutTick) {
          TurnStep(sys);
          TurnRest(sys);
          var again := timers[t].periodic && timers[t].active;
          Withdraw(t, sys.lag + 1);
          fired := fired + [t];
          if again {
            Start(t, sys.lag + 1);
          }
        } else {
          assert !HeadDue(sys.agenda, sys.now);
          break;
        }
      }
      TowerHead(sys.agenda, rows);
      FireAllDone(sys);
      WithinLess(sys, 0, sys.lag);
    }

    /** `rt_tick_increase`, as far as the timers are concerned. */
    method Tick() returns (fired: seq<Id>)
      requires Valid() && Enabled(sys, TimerRuns.Tick)
      modifies this
      ensures Valid()
      ensures sys == Step(old(sys), TimerRuns.Tick)
      ensures fired == Expired(old(sys).(now := old(sys.now) + 1))
    {
      hide Tower, Rearmable, FireAll, Expired;
      WrapAdd(sys.now, 1);
      tick := Wrap(tick + 1);
      sys := sys.(now := sys.now + 1);
      fired := Check();
    }

    /** `rt_timer_init` of a timer that is not running, and the setters of `rt_timer_control`. */
    method Configure(t: Id, c: Conf)
      requires Valid()
      modifies this`timers, this`sys
      ensures Valid()
      ensures sys == Step(old(sys), TimerRuns.Configure(t, c))
      ensures timers == old(timers)[t := if t in old(timers)
                                    then old(timers[t]).(initTick := c.interval, periodic := c.periodic)
                                         else Timer(0, c.interval, false, c.periodic)]
    {
      if t in timers {
        timers := timers[t := timers[t].(initTick := c.interval, periodic := c.periodic)];
      } else {
        timers := timers[t := Timer(0, c.interval, false, c.periodic)];
      }
      sys := sys.(conf := sys.conf[t := c]);
    }
  }
}
