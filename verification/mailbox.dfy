/** Threads that wait for something to arrive, without lost wake-ups. */
module Waiting {
  import opened Lists

  /** The threads suspended on a list, and the threads that were taken off it to try again but have
      not run yet. */
  datatype Queue = Queue(suspended: seq<nat>, woken: set<nat>) {
    ghost predicate Valid() {
      Distinct(suspended) && forall t :: t in suspended ==> t !in woken
    }

    /** Nobody is left suspended in front of something that nobody else has been told about. */
    ghost predicate Told(available: nat) {
      suspended != [] ==> available <= |woken|
    }

    /** A thread goes to sleep, at a place that depends on the flag of the object. */
    ghost predicate Slept(t: nat, q: Queue) {
      && q.woken == woken - {t}
      && exists k :: 0 <= k <= |suspended| && q.suspended == suspended[..k] + [t] + suspended[k..]
    }

    function Ran(t: nat): (q: Queue) {
      this.(woken := woken - {t})
    }

    /** rt_ipc_list_resume, if there is anyone. */
    function Wake(): (q: Queue) {
      if suspended == [] then this else Queue(suspended[1..], woken + {suspended[0]})
    }

    function Abandoned(t: nat): (q: Queue) {
      this.(suspended := Without(suspended, t))
    }

    /** rt_ipc_list_resume_all: everybody leaves with an error. */
    function Cleared(): (q: Queue) {
      this.(suspended := [])
    }
  }

  lemma SleptValid(q: Queue, t: nat, r: Queue)
    requires q.Valid() && t !in q.suspended && q.Slept(t, r)
    ensures r.Valid() && r.Told(0)
  {
    var k :| 0 <= k <= |q.suspended| && r.suspended == q.suspended[..k] + [t] + q.suspended[k..];
    assert q.suspended[..k] + q.suspended[k..] == q.suspended;
    InsertDistinct(q.suspended[..k], q.suspended[k..], t);
  }

  /** One more thing is available, and one thread hears of it: the first. */
  lemma WakeTold(q: Queue, available: nat)
    requires q.Valid() && q.Told(available)
    ensures q.Wake().Valid() && q.Wake().Told(available + 1)
    ensures q.suspended == [] ==> q.Wake() == q
    ensures q.suspended != [] ==>
              && q.Wake().woken == q.woken + {q.suspended[0]}
              && [q.suspended[0]] + q.Wake().suspended == q.suspended
  {
  }

  /** A thread that runs takes one thing, or finds nothing. */
  lemma RanTold(q: Queue, t: nat, available: nat)
    requires q.Valid() && t !in q.suspended && q.Told(available)
    ensures q.Ran(t).Valid() && q.Ran(t).Told(if available == 0 then 0 else available - 1)
    ensures q.Ran(t).suspended == q.suspended && forall u :: u in q.Ran(t).woken <==> u in q.woken && u != t
  {
  }

  lemma AbandonedTold(q: Queue, t: nat, available: nat)
    requires q.Valid() && q.Told(available)
    ensures q.Abandoned(t).Valid() && q.Abandoned(t).Told(available)
    ensures q.Abandoned(t).suspended == Without(q.suspended, t) && q.Abandoned(t).woken == q.woken
  {
    WithoutDistinct(q.suspended, t);
  }

  /** Once everyone who was woken has run, a suspended thread means that there is nothing to have. */
  lemma NoLostWakeUp(q: Queue, available: nat)
    requires q.Told(available) && q.woken == {} && q.suspended != []
    ensures available == 0
  {
  }
}

/** A mailbox (rt_mb_init, rt_mb_send_wait, rt_mb_recv, rt_mb_control in src/ipc.c). Every method is one
    section with interrupts disabled; `t` is the thread that runs it, and a thread that was woken
    runs the same section again. */
module MailboxModel {
  import opened Lists
  import opened Waiting

  datatype Outcome = Done | Refused | Blocked

  /** The slot `k` places after `from`. */
  function Slot(from: nat, k: nat, size: nat): (i: nat)
    requires from < size && k < size
    ensures i < size
  {
    if from + k < size then from + k else from + k - size
  }

  class Mailbox {
    const pool: array<int>
    var entry: nat
    var inOffset: nat
    var outOffset: nat
    var receivers: Queue
    var senders: Queue

    ghost var contents: seq<int>

    ghost predicate Ring()
      reads this`entry, this`inOffset, this`outOffset, this`contents, pool
    {
      && |contents| == entry <= pool.Length
      && (pool.Length == 0 ==> inOffset == outOffset == 0)
      && (pool.Length > 0 ==>
            && outOffset < pool.Length
            && inOffset == (if entry == pool.Length then outOffset else Slot(outOffset, entry, pool.Length))
            && forall k :: 0 <= k < entry ==> pool[Slot(outOffset, k, pool.Length)] == contents[k])
    }

    ghost predicate Valid()
      reads this, pool
    {
      && Ring()
      && receivers.Valid() && senders.Valid()
      && receivers.Told(entry)
      && senders.Told(pool.Length - entry)
    }

    constructor (pool: array<int>)
      ensures Valid() && this.pool == pool && contents == []
      ensures receivers == Queue([], {}) && senders == Queue([], {})
    {
      this.pool, entry, inOffset, outOffset := pool, 0, 0, 0;
      receivers, senders, contents := Queue([], {}), Queue([], {}), [];
    }

    method Put(value: int)
      requires Ring() && entry < pool.Length
      modifies pool, this`inOffset, this`entry, this`contents
      ensures Ring() && contents == old(contents) + [value]
    {
      pool[inOffset] := value;
      inOffset := inOffset + 1;
      if inOffset >= pool.Length {
        inOffset := 0;
      }
      entry := entry + 1;
      contents := contents + [value];
    }

    method Get() returns (value: int)
      requires Ring() && entry > 0
      modifies this`outOffset, this`entry, this`contents
      ensures Ring() && [value] + contents == old(contents)
    {
      value := pool[outOffset];
      assert Slot(outOffset, 0, pool.Length) == outOffset;
      ghost var from := outOffset;
      outOffset := outOffset + 1;
      if outOffset >= pool.Length {
        outOffset := 0;
      }
      entry := entry - 1;
      contents := contents[1..];
      assert forall k :: 0 <= k < entry ==> Slot(outOffset, k, pool.Length) == Slot(from, k + 1, pool.Length);
    }

    method Sleep(q: Queue, t: nat) returns (r: Queue)
      ensures q.Slept(t, r)
    {
      var k :| 0 <= k <= |q.suspended|;
      r := Queue(q.suspended[..k] + [t] + q.suspended[k..], q.woken - {t});
    }

    /** rt_mb_send_wait; `wait` says that some of the timeout is left. */
    method Send(t: nat, value: int, wait: bool) returns (r: Outcome)
      requires Valid() && t !in senders.suspended
      modifies this, pool
      ensures Valid()
      ensures r == if old(entry) < pool.Length then Done else if wait then Blocked else Refused
      ensures contents == if r == Done then old(contents) + [value] else old(contents)
      ensures receivers == if r == Done then old(receivers).Wake() else old(receivers)
      ensures if r == Blocked then old(senders).Slept(t, senders) else senders == old(senders).Ran(t)
    {
      hide Ring, Slot, senders.Told, senders.Valid, senders.Wake, senders.Ran, senders.Slept;
      assert |contents| == entry <= pool.Length by { RingCount(); }
      RanTold(senders, t, pool.Length - entry);
      if entry == pool.Length {
        if !wait {
          senders := senders.Ran(t);
          return Refused;
        }
        ghost var q := senders;
        senders := Sleep(senders, t);
        SleptValid(q, t, senders);
        return Blocked;
      }
      senders := senders.Ran(t);
      Put(value);
      RingCount();
      WakeTold(receivers, old(entry));
      receivers := receivers.Wake();
      r := Done;
    }

    lemma RingCount()
      requires Ring()
      ensures |contents| == entry <= pool.Length
    {
    }

    /** rt_mb_recv. */
    method Recv(t: nat, wait: bool) returns (r: Outcome, value: int)
      requires Valid() && t !in receivers.suspended
      modifies this
      ensures Valid()
      ensures r == if old(entry) > 0 then Done else if wait then Blocked else Refused
      ensures if r == Done then [value] + contents == old(contents) else contents == old(contents)
      ensures senders == if r == Done then old(senders).Wake() else old(senders)
      ensures if r == Blocked then old(receivers).Slept(t, receivers) else receivers == old(receivers).Ran(t)
    {
      hide Ring, Slot, senders.Told, senders.Valid, senders.Wake, senders.Ran, senders.Slept;
      RingCount();
      value := 0;
      RanTold(receivers, t, entry);
      if entry == 0 {
        if !wait {
          receivers := receivers.Ran(t);
          return Refused, 0;
        }
        ghost var q := receivers;
        receivers := Sleep(receivers, t);
        SleptValid(q, t, receivers);
        return Blocked, 0;
      }
      receivers := receivers.Ran(t);
      value := Get();
      RingCount();
      WakeTold(senders, pool.Length - old(entry));
      senders := senders.Wake();
      r := Done;
    }

    /** rt_thread_timeout for a suspended thread. */
    method Timeout(t: nat)
      requires Valid()
      modifies this`receivers, this`senders
      ensures Valid()
      ensures receivers == old(receivers).(suspended := Without(old(receivers).suspended, t))
      ensures senders == old(senders).(suspended := Without(old(senders).suspended, t))
    {
      hide Ring, Slot, senders.Told, senders.Valid, senders.Wake, senders.Ran, senders.Slept;
      RingCount();
      AbandonedTold(receivers, t, entry);
      AbandonedTold(senders, t, pool.Length - entry);
      receivers, senders := receivers.Abandoned(t), senders.Abandoned(t);
    }

    /** rt_mb_control with RT_IPC_CMD_RESET. */
    method Reset()
      requires Valid()
      modifies this
      ensures Valid() && contents == []
      ensures receivers == Queue([], old(receivers).woken) && senders == Queue([], old(senders).woken)
    {
      receivers, senders := receivers.Cleared(), senders.Cleared();
      entry, inOffset, outOffset, contents := 0, 0, 0, [];
    }
  }
}
