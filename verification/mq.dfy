/** Lists linked through a `next` field and ended by NULL. */
module Links {
  import opened Lists

  const NULL: nat := 0

  type Next = map<nat, nat>

  /** `s` is what is found by following the links from `p`. */
  ghost predicate Linked(next: Next, p: nat, s: seq<nat>)
    decreases |s|
  {
    if s == [] then p == NULL
    else p == s[0] && p != NULL && p in next && Linked(next, next[p], s[1..])
  }

  function Last(s: seq<nat>): (p: nat) {
    if s == [] then NULL else s[|s| - 1]
  }

  /** Links elsewhere do not matter. */
  lemma {:induction false} LinkedFrame(next: Next, next': Next, p: nat, s: seq<nat>)
    requires Linked(next, p, s)
    requires forall x :: x in s && x in next ==> x in next' && next'[x] == next[x]
    ensures Linked(next', p, s)
    decreases |s|
  {
    if s == [] {
    } else {
      LinkedFrame(next, next', next[p], s[1..]);
    }
  }

  lemma {:induction false} LinkedAppend(next: Next, p: nat, s: seq<nat>, m: nat)
    requires Linked(next, p, s) && Distinct(s) && s != [] && m !in s && m in next && next[m] == NULL && m != NULL
    ensures Linked(next[Last(s) := m], p, s + [m])
    decreases |s|
  {
    var next' := next[Last(s) := m];
    if |s| == 1 {
      assert (s + [m])[1..] == [m];
      assert Linked(next', next'[m], []);
      assert Linked(next', m, [m]);
    } else {
      assert Last(s) == Last(s[1..]) && Last(s) in s[1..];
      LinkedAppend(next, next[p], s[1..], m);
      assert (s + [m])[1..] == s[1..] + [m];
    }
  }

  lemma {:induction false} LinkedNodes(next: Next, p: nat, s: seq<nat>)
    requires Linked(next, p, s)
    ensures forall x :: x in s ==> x != NULL && x in next
    ensures p == NULL <==> s == []
    ensures Last(s) == NULL <==> s == []
    ensures s != [] ==> p == s[0] && Last(s) in s && Linked(next, next[p], s[1..])
    decreases |s|
  {
    if s == [] {
    } else {
      LinkedNodes(next, next[p], s[1..]);
      assert |s| > 1 ==> Last(s) == Last(s[1..]);
      assert forall x :: x in s ==> x == s[0] || x in s[1..];
    }
  }

  /** Linking a node in as the last one, through the tail pointer. */
  lemma LinkedLast(next: Next, p: nat, s: seq<nat>, m: nat)
    requires Linked(next, p, s) && Distinct(s) && m !in s && m in next && next[m] == NULL && m != NULL
    ensures Linked(if s == [] then next else next[Last(s) := m], if p == NULL then m else p, s + [m])
    ensures Last(s + [m]) == m
  {
    LinkedNodes(next, p, s);
    if s == [] {
      assert s + [m] == [m] && Linked(next, NULL, []);
      assert Linked(next, m, [m]);
    } else {
      LinkedAppend(next, p, s, m);
    }
  }

  lemma LinkedPush(next: Next, p: nat, s: seq<nat>, m: nat)
    requires Linked(next, p, s) && m !in s && m != NULL
    ensures Linked(next[m := p], m, [m] + s)
  {
    LinkedFrame(next, next[m := p], p, s);
    assert ([m] + s)[1..] == s;
  }

  lemma LastPush(m: nat, s: seq<nat>)
    ensures Last([m] + s) == if s == [] then m else Last(s)
  {
  }

  lemma LastPop(s: seq<nat>)
    requires s != [] && Distinct(s)
    ensures Last(s[1..]) == if Last(s) == s[0] then NULL else Last(s)
  {
    assert |s| > 1 ==> Last(s) in s[1..];
  }

  function Reversed(s: seq<nat>): (r: seq<nat>)
    ensures forall x :: x in r <==> x in s
  {
    if s == [] then [] else Reversed(s[1..]) + [s[0]]
  }

  lemma {:induction false} ReversedAppend(s: seq<nat>, m: nat)
    ensures Reversed(s + [m]) == [m] + Reversed(s)
  {
    if s == [] {
      assert Reversed([m]) == Reversed([m][1..]) + [m] == [m];
    } else {
      ReversedAppend(s[1..], m);
      assert (s + [m])[1..] == s[1..] + [m];
    }
  }

  lemma {:induction false} DistinctAt(s: seq<nat>, k: nat)
    requires Distinct(s) && k < |s|
    ensures s[k] !in s[..k]
  {
    if k == 0 {
    } else {
      DistinctAt(s[1..], k - 1);
      assert s[..k] == [s[0]] + s[1..][..k - 1];
    }
  }
}

/** A message queue (rt_mq_init, rt_mq_send, rt_mq_urgent, rt_mq_recv, rt_mq_control in src/ipc.c) under
    every interleaving: each method is one section with interrupts disabled, or one stretch of code
    between two such sections. */
module MessageQueueModel {
  import opened Lists
  import opened Links
  import opened Waiting

  datatype Grant = Granted(msg: nat) | TooBig | Full

  datatype Outcome = Taken(msg: nat) | Refused | Blocked

  /** What a message is that belongs to a thread at the moment. */
  datatype Hold = Raw | Letter(body: seq<int>) | Urgent(body: seq<int>) | Opened(body: seq<int>)

  /** Every message is free, queued or held, and in one place only. */
  ghost predicate Partition(pool: set<nat>, queued: seq<nat>, free: seq<nat>, held: map<nat, Hold>) {
    && Distinct(queued) && Distinct(free)
    && (forall m :: m in queued ==> m !in free && m !in held)
    && (forall m :: m in free ==> m !in held)
    && (forall m :: m in pool <==> m in queued || m in free || m in held)
  }

  /** The message starts with what was put into it. */
  predicate Carries(data: seq<int>, body: seq<int>) {
    |body| <= |data| && data[..|body|] == body
  }

  ghost predicate AllCarry(data: map<nat, seq<int>>, queued: seq<nat>, bodies: seq<seq<int>>) {
    && |bodies| == |queued|
    && (queued != [] ==>
        queued[0] in data && Carries(data[queued[0]], bodies[0]) && AllCarry(data, queued[1..], bodies[1..]))
  }

  /** A held message carries its body, and a letter is ready to be the last of the queue. */
  ghost predicate HoldFits(next: Next, data: map<nat, seq<int>>, m: nat, h: Hold) {
    && m in data && m in next
    && (h.Letter? ==> next[m] == NULL)
    && (!h.Raw? ==> Carries(data[m], h.body))
  }

  ghost predicate HoldsFit(next: Next, data: map<nat, seq<int>>, held: map<nat, Hold>) {
    forall m :: m in held ==> HoldFits(next, data, m, held[m])
  }

  /** Links of messages that nobody holds do not matter to the holders, nor does giving one up. */
  lemma HoldsFrame(next: Next, next': Next, data: map<nat, seq<int>>, held: map<nat, Hold>, gone: set<nat>)
    requires HoldsFit(next, data, held) && next'.Keys == next.Keys
    requires forall m :: m in held && m !in gone ==> next'[m] == next[m] || m !in next
    ensures HoldsFit(next', data, held - gone)
  {
    forall m | m in held && m !in gone ensures HoldFits(next', data, m, held[m]) {
      assert HoldFits(next, data, m, held[m]);
    }
  }

  lemma Enqueued(pool: set<nat>, queued: seq<nat>, free: seq<nat>, held: map<nat, Hold>, m: nat)
    requires Partition(pool, queued, free, held) && m in held
    ensures Distinct(queued) && m !in queued && m !in free && m in pool
    ensures forall x :: x in queued ==> x !in free && x !in held
    ensures Partition(pool, queued + [m], free, held - {m})
    ensures Partition(pool, [m] + queued, free, held - {m})
    ensures Partition(pool, queued, [m] + free, held - {m})
  {
    hide Distinct;
    AppendDistinct(queued, m);
    AppendDistinct(free, m);
  }

  lemma Dequeued(pool: set<nat>, queued: seq<nat>, free: seq<nat>, held: map<nat, Hold>, h: Hold)
    requires Partition(pool, queued, free, held) && queued != []
    ensures Distinct(queued) && queued[0] in pool && queued[0] !in free && queued[0] !in held
            && queued[0] !in queued[1..]
    ensures Partition(pool, queued[1..], free, held[queued[0] := h])
    ensures Partition(pool, queued[1..], [queued[0]] + free, held)
    ensures forall x :: x in queued || x in free ==> x !in held
  {
    AppendDistinct(free, queued[0]);
  }

  lemma {:induction false} AllCarryFrame(data: map<nat, seq<int>>, m: nat, d: seq<int>, queued: seq<nat>,
                                         bodies: seq<seq<int>>)
    requires AllCarry(data, queued, bodies) && m !in queued
    ensures AllCarry(data[m := d], queued, bodies)
  {
    if queued == [] {
    } else {
      AllCarryFrame(data, m, d, queued[1..], bodies[1..]);
    }
  }

  lemma {:induction false} AllCarryAppend(data: map<nat, seq<int>>, m: nat, queued: seq<nat>, bodies: seq<seq<int>>,
                                          body: seq<int>)
    requires AllCarry(data, queued, bodies) && m in data && Carries(data[m], body)
    ensures AllCarry(data, queued + [m], bodies + [body])
  {
    if queued == [] {
      assert (queued + [m])[1..] == [] && (bodies + [body])[1..] == [];
      assert AllCarry(data, [], []);
    } else {
      AllCarryAppend(data, m, queued[1..], bodies[1..], body);
      assert (queued + [m])[1..] == queued[1..] + [m] && (bodies + [body])[1..] == bodies[1..] + [body];
    }
  }

  lemma {:induction false} AppendDistinct(s: seq<nat>, m: nat)
    requires Distinct(s) && m !in s
    ensures Distinct(s + [m]) && Distinct([m] + s)
  {
    assert s + [] == s == [] + s && [m] + s == [] + [m] + s && s + [m] == s + [m] + [];
    InsertDistinct(s, [], m);
    InsertDistinct([], s, m);
  }

  lemma AllCarryPush(data: map<nat, seq<int>>, m: nat, queued: seq<nat>, bodies: seq<seq<int>>, body: seq<int>)
    requires AllCarry(data, queued, bodies) && m in data && Carries(data[m], body)
    ensures AllCarry(data, [m] + queued, [body] + bodies)
  {
    assert ([m] + queued)[1..] == queued && ([body] + bodies)[1..] == bodies;
  }

  /** The links, the contents and the counters of a queue; `queued`, `unused`, `held` and `bodies` say
      what they stand for. */
  datatype Image = Image(next: Next, data: map<nat, seq<int>>, head: nat, tail: nat, free: nat, entry: nat,
                         queued: seq<nat>, unused: seq<nat>, held: map<nat, Hold>, bodies: seq<seq<int>>) {
    ghost predicate Chains() {
      && Linked(next, head, queued) && tail == Last(queued) && entry == |queued|
      && Linked(next, free, unused)
    }

    ghost predicate Memory(pool: set<nat>, size: nat) {
      && next.Keys == data.Keys == pool
      && NULL !in pool
      && (forall m :: m in pool ==> |data[m]| == size)
    }

    ghost predicate Good(pool: set<nat>, size: nat) {
      && Chains() && Memory(pool, size) && HoldsFit(next, data, held)
      && Partition(pool, queued, unused, held)
      && AllCarry(data, queued, bodies)
    }

    /** What a thread holds is neither queued nor free. */
    lemma Held(pool: set<nat>, size: nat, m: nat)
      requires Good(pool, size) && m in held
      ensures m in pool && m in next && m in data && m !in queued && m !in unused && HoldFits(next, data, m, held[m])
      ensures m != NULL && forall x :: x in queued || x in unused ==> x !in held
    {
    }

    lemma Counted(pool: set<nat>, size: nat)
      requires Good(pool, size)
      ensures entry == |queued| == |bodies| && (head == NULL <==> entry == 0)
    {
      LinkedNodes(next, head, queued);
    }

    lemma Emptied(pool: set<nat>, size: nat)
      requires Good(pool, size) && head == NULL
      ensures queued == [] && bodies == [] && entry == 0
    {
      LinkedNodes(next, head, queued);
    }

    ghost function LinkLast(m: nat): (i: Image)
      requires m in held && !held[m].Raw?
    {
      this.(next := if tail == NULL then next else next[tail := m], head := if head == NULL then m else head, tail := m,
            entry := entry + 1, queued := queued + [m], held := held - {m}, bodies := bodies + [held[m].body])
    }

    lemma LinkLastGood(pool: set<nat>, size: nat, m: nat)
      requires Good(pool, size) && m in held && held[m].Letter?
      ensures LinkLast(m).Good(pool, size)
    {
      hide Linked, Distinct, AllCarry, Carries, Last, Partition;
      var i := LinkLast(m);
      Held(pool, size, m);
      Enqueued(pool, queued, unused, held, m);
      LinkedNodes(next, head, queued);
      LinkedLast(next, head, queued, m);
      LinkedFrame(next, i.next, free, unused);
      HoldsFrame(next, i.next, data, held, {m});
      AllCarryAppend(data, m, queued, bodies, held[m].body);
    }

    ghost function LinkFirst(m: nat): (i: Image)
      requires m in held && !held[m].Raw?
    {
      this.(next := next[m := head], head := m, tail := if tail == NULL then m else tail,
            entry := entry + 1, queued := [m] + queued, held := held - {m}, bodies := [held[m].body] + bodies)
    }

    lemma LinkFirstGood(pool: set<nat>, size: nat, m: nat)
      requires Good(pool, size) && m in held && held[m].Urgent?
      ensures LinkFirst(m).Good(pool, size)
    {
      hide Linked, Distinct, AllCarry, Carries, Last, Partition;
      var i := LinkFirst(m);
      Held(pool, size, m);
      Enqueued(pool, queued, unused, held, m);
      LinkedNodes(next, head, queued);
      LinkedPush(next, head, queued, m);
      LinkedFrame(next, i.next, free, unused);
      HoldsFrame(next, i.next, data, held, {m});
      LastPush(m, queued);
      AllCarryPush(data, m, queued, bodies, held[m].body);
    }

    /** The first message leaves the queue, for the one who receives it. */
    ghost function Unlink(): (i: Image)
      requires queued != [] && bodies != [] && head in next && entry > 0
    {
      this.(head := next[head], tail := if tail == head then NULL else tail, entry := entry - 1,
            queued := queued[1..], bodies := bodies[1..], held := held[head := Opened(bodies[0])])
    }

    lemma UnlinkGood(pool: set<nat>, size: nat)
      requires Good(pool, size) && head != NULL
      ensures queued != [] && |bodies| == |queued| == entry && head == queued[0] && head in next
              && Unlink().Good(pool, size)
    {
      hide Linked, Distinct, Carries, Last, Partition;
      LinkedNodes(next, head, queued);
      Dequeued(pool, queued, unused, held, Opened(bodies[0]));
      LastPop(queued);
      var i := Unlink();
      forall m | m in i.held ensures HoldFits(next, data, m, i.held[m]) {
        assert m in held ==> HoldFits(next, data, m, held[m]);
      }
    }

    /** A message that is held becomes free. */
    ghost function Return(m: nat): (i: Image) {
      this.(next := next[m := free], free := m, unused := [m] + unused, held := held - {m})
    }

    lemma ReturnGood(pool: set<nat>, size: nat, m: nat)
      requires Good(pool, size) && m in held
      ensures Return(m).Good(pool, size)
    {
      hide Linked, Distinct, AllCarry, Carries, Last, Partition;
      var i := Return(m);
      Held(pool, size, m);
      Enqueued(pool, queued, unused, held, m);
      LinkedPush(next, free, unused, m);
      LinkedFrame(next, i.next, head, queued);
      HoldsFrame(next, i.next, data, held, {m});
    }

    /** The first message goes from the queue to the free list. */
    ghost function Discard(): (i: Image)
      requires queued != [] && bodies != [] && head in next && entry > 0
    {
      this.(next := next[head := free], head := next[head], tail := if tail == head then NULL else tail,
            entry := entry - 1,
            free := head, queued := queued[1..], bodies := bodies[1..], unused := [head] + unused)
    }

    lemma DiscardGood(pool: set<nat>, size: nat)
      requires Good(pool, size) && head != NULL
      ensures queued != [] && |bodies| == |queued| == entry && head == queued[0] && head in next
              && Discard().Good(pool, size)
    {
      UnlinkGood(pool, size);
      assert head !in held;
      hide Good;
      Unlink().ReturnGood(pool, size, head);
      assert Unlink().Return(head).held == held;
      assert Unlink().Return(head) == Discard();
    }

    ghost function Grab(): (i: Image)
      requires unused != [] && free in next
    {
      this.(free := next[free], unused := unused[1..], held := held[free := Raw])
    }

    lemma GrabGood(pool: set<nat>, size: nat)
      requires Good(pool, size) && free != NULL
      ensures unused != [] && free == unused[0] && free in next && Grab().Good(pool, size)
    {
      LinkedNodes(next, free, unused);
      var i := Grab();
      forall m | m in i.held ensures HoldFits(next, data, m, i.held[m]) {
        assert m in held ==> HoldFits(next, data, m, held[m]);
      }
    }

    /** A buffer is copied into a message that is held. */
    ghost function Fill(m: nat, link: nat, buffer: seq<int>, h: Hold): (i: Image)
      requires m in data && |buffer| <= |data[m]|
    {
      this.(next := next[m := link], data := data[m := buffer + data[m][|buffer|..]], held := held[m := h])
    }

    lemma FillGood(pool: set<nat>, size: nat, m: nat, link: nat, buffer: seq<int>, h: Hold)
      requires Good(pool, size) && m in held && |buffer| <= size
      requires h == Urgent(buffer) || (h == Letter(buffer) && link == NULL)
      ensures m in data && |data[m]| == size && Fill(m, link, buffer, h).Good(pool, size)
    {
      hide Linked, Distinct, AllCarry, Last, Partition;
      Held(pool, size, m);
      var i := Fill(m, link, buffer, h);
      LinkedFrame(next, i.next, head, queued);
      LinkedFrame(next, i.next, free, unused);
      AllCarryFrame(data, m, i.data[m], queued, bodies);
      Reheld(pool, queued, unused, held, m, h);
      assert Carries(i.data[m], buffer);
      forall x | x in i.held ensures HoldFits(i.next, i.data, x, i.held[x]) {
        assert x != m ==> HoldFits(next, data, x, held[x]);
      }
    }
  }

  lemma Reheld(pool: set<nat>, queued: seq<nat>, free: seq<nat>, held: map<nat, Hold>, m: nat, h: Hold)
    requires Partition(pool, queued, free, held) && m in held
    ensures Partition(pool, queued, free, held[m := h])
  {
  }

  /** The loop of rt_mq_init: each message is pushed in front of the free list. */
  method ChainUp(addresses: seq<nat>) returns (links: Next, list: nat, ghost done: seq<nat>)
    requires Distinct(addresses) && NULL !in addresses
    ensures Linked(links, list, done) && Distinct(done) && done == Reversed(addresses)
    ensures links.Keys == set m | m in addresses
  {
    hide Linked, Distinct, Reversed;
    links, list, done := map[], NULL, [];
    var k := 0;
    ChainStart();
    while k < |addresses|
      invariant 0 <= k <= |addresses|
      invariant Linked(links, list, done) && Distinct(done)
      invariant done == Reversed(addresses[..k])
      invariant links.Keys == set m | m in addresses[..k]
    {
      DistinctAt(addresses, k);
      assert addresses[..k + 1] == addresses[..k] + [addresses[k]];
      ReversedAppend(addresses[..k], addresses[k]);
      LinkedPush(links, list, done, addresses[k]);
      AppendDistinct(done, addresses[k]);
      links := links[addresses[k] := list];
      list := addresses[k];
      done := [addresses[k]] + done;
      k := k + 1;
    }
    assert addresses[..k] == addresses;
  }

  lemma ChainStart()
    ensures Linked(map[], NULL, []) && Distinct([]) && Reversed([]) == []
  {
  }

  class MessageQueue {
    const msgSize: nat
    ghost const pool: set<nat>
    var next: Next
    var data: map<nat, seq<int>>
    var head: nat
    var tail: nat
    var free: nat
    var entry: nat
    var receivers: Queue

    ghost var queued: seq<nat>
    ghost var unused: seq<nat>
    ghost var held: map<nat, Hold>
    ghost var bodies: seq<seq<int>>

    ghost function Now(): (i: Image)
      reads this`next, this`data, this`head, this`tail, this`free, this`entry, this`queued, this`unused, this`held,
            this`bodies
    {
      Image(next, data, head, tail, free, entry, queued, unused, held, bodies)
    }

    ghost predicate Valid()
      reads this
    {
      Now().Good(pool, msgSize) && receivers.Valid() && receivers.Told(entry)
    }

    /** Puts the messages of the pool on the free list, in the order of the pool. */
    constructor (addresses: seq<nat>, msgSize: nat, data: map<nat, seq<int>>)
      requires Distinct(addresses) && NULL !in addresses
      requires data.Keys == (set m | m in addresses) && forall m :: m in data ==> |data[m]| == msgSize
      ensures Valid() && queued == [] && held == map[] && bodies == [] && unused == Reversed(addresses)
      ensures this.msgSize == msgSize && pool == set m | m in addresses
    {
      this.msgSize, this.data, this.pool := msgSize, data, set m | m in addresses;
      head, tail, entry, receivers := NULL, NULL, 0, Queue([], {});
      queued, held, bodies := [], map[], [];
      var links, list, done := ChainUp(addresses);
      next, free, unused := links, list, done;
    }

    /** The first section of rt_mq_send and rt_mq_urgent. */
    method Allocate(size: nat) returns (r: Grant)
      requires Valid()
      modifies this`free, this`unused, this`held
      ensures Valid()
      ensures r == if size > msgSize then TooBig else if old(unused) == [] then Full else Granted(old(unused)[0])
      ensures if r.Granted? then unused == old(unused)[1..] && held == old(held)[r.msg := Raw]
              else unused == old(unused) && held == old(held)
    {
      if size > msgSize {
        return TooBig;
      }
      LinkedNodes(next, free, unused);
      hide Now().Good;
      if free == NULL {
        return Full;
      }
      Now().GrabGood(pool, msgSize);
      var msg := free;
      free := next[msg];
      unused, held := unused[1..], held[msg := Raw];
      assert Now() == old(Now()).Grab();
      r := Granted(msg);
    }

    /** rt_mq_send between its sections: the message will be the last one. */
    method Write(msg: nat, buffer: seq<int>)
      requires Valid() && msg in held && held[msg] == Raw && |buffer| <= msgSize
      modifies this`next, this`data, this`held
      ensures Valid() && held == old(held)[msg := Letter(buffer)]
    {
      hide Now().Good;
      Now().FillGood(pool, msgSize, msg, NULL, buffer, Letter(buffer));
      next := next[msg := NULL];
      data := data[msg := buffer + data[msg][|buffer|..]];
      held := held[msg := Letter(buffer)];
      assert Now() == old(Now()).Fill(msg, NULL, buffer, Letter(buffer));
    }

    /** rt_mq_urgent between its sections. */
    method WriteUrgent(msg: nat, buffer: seq<int>)
      requires Valid() && msg in held && held[msg] == Raw && |buffer| <= msgSize
      modifies this`data, this`held
      ensures Valid() && held == old(held)[msg := Urgent(buffer)]
    {
      Now().Held(pool, msgSize, msg);
      hide Now().Good;
      Now().FillGood(pool, msgSize, msg, next[msg], buffer, Urgent(buffer));
      data := data[msg := buffer + data[msg][|buffer|..]];
      held := held[msg := Urgent(buffer)];
      assert Now() == old(Now()).Fill(msg, next[msg], buffer, Urgent(buffer));
    }

    /** The second section of rt_mq_send. */
    method Post(msg: nat)
      requires Valid() && msg in held && held[msg].Letter?
      modifies this
      ensures Valid() && data == old(data) && unused == old(unused)
      ensures queued == old(queued) + [msg] && bodies == old(bodies) + [old(held)[msg].body]
      ensures held == old(held) - {msg}
      ensures receivers == old(receivers).Wake()
    {
      hide Now().Good, receivers.Told, receivers.Valid, receivers.Wake, receivers.Ran, receivers.Slept;
      Now().LinkLastGood(pool, msgSize, msg);
      if tail != NULL {
        next := next[tail := msg];
      }
      tail := msg;
      if head == NULL {
        head := msg;
      }
      entry := entry + 1;
      queued, bodies, held := queued + [msg], bodies + [held[msg].body], held - {msg};
      assert Now() == old(Now()).LinkLast(msg);
      WakeTold(receivers, old(entry));
      receivers := receivers.Wake();
    }

    /** The second section of rt_mq_urgent. */
    method PostFirst(msg: nat)
      requires Valid() && msg in held && held[msg].Urgent?
      modifies this
      ensures Valid() && data == old(data) && unused == old(unused)
      ensures queued == [msg] + old(queued) && bodies == [old(held)[msg].body] + old(bodies)
      ensures held == old(held) - {msg}
      ensures receivers == old(receivers).Wake()
    {
      hide Now().Good, receivers.Told, receivers.Valid, receivers.Wake, receivers.Ran, receivers.Slept;
      Now().LinkFirstGood(pool, msgSize, msg);
      next := next[msg := head];
      head := msg;
      if tail == NULL {
        tail := msg;
      }
      entry := entry + 1;
      queued, bodies, held := [msg] + queued, [held[msg].body] + bodies, held - {msg};
      assert Now() == old(Now()).LinkFirst(msg);
      WakeTold(receivers, old(entry));
      receivers := receivers.Wake();
    }

    /** The sections of rt_mq_recv up to where it has a message; `wait` says that some of the timeout
        is left, and a thread that was woken runs this again. */
    method Receive(t: nat, wait: bool) returns (r: Outcome)
      requires Valid() && t !in receivers.suspended
      modifies this
      ensures Valid() && data == old(data) && unused == old(unused)
      ensures r == if old(queued) != [] then Taken(old(queued)[0]) else if wait then Blocked else Refused
      ensures r.Taken? ==>
                queued == old(queued)[1..] && bodies == old(bodies)[1..]
                    && held == old(held)[r.msg := Opened(old(bodies)[0])]
      ensures !r.Taken? ==> queued == old(queued) && bodies == old(bodies) && held == old(held)
      ensures if r.Blocked? then old(receivers).Slept(t, receivers) else receivers == old(receivers).Ran(t)
    {
      Now().Counted(pool, msgSize);
      hide Now().Good, Now, receivers.Told, receivers.Valid, receivers.Ran;
      RanTold(receivers, t, entry);
      if entry == 0 {
        if !wait {
          receivers := receivers.Ran(t);
          return Refused;
        }
        var k :| 0 <= k <= |receivers.suspended|;
        receivers := Queue(receivers.suspended[..k] + [t] + receivers.suspended[k..], receivers.woken - {t});
        SleptValid(old(receivers), t, receivers);
        return Blocked;
      }
      receivers := receivers.Ran(t);
      r := Unlink();
    }

    method Unlink() returns (r: Outcome)
      requires Now().Good(pool, msgSize) && head != NULL
      modifies this`head, this`tail, this`entry, this`queued, this`bodies, this`held
      ensures Now().Good(pool, msgSize) && old(queued) != [] && old(bodies) != [] && entry == old(entry) - 1
      ensures r == Taken(old(queued)[0]) && queued == old(queued)[1..] && bodies == old(bodies)[1..]
      ensures held == old(held)[r.msg := Opened(old(bodies)[0])]
    {
      hide Now().Good;
      Now().UnlinkGood(pool, msgSize);
      var msg := head;
      head := next[msg];
      if tail == msg {
        tail := NULL;
      }
      entry := entry - 1;
      held := held[msg := Opened(bodies[0])];
      queued, bodies := queued[1..], bodies[1..];
      assert Now() == old(Now()).Unlink();
      r := Taken(msg);
    }

    /** rt_mq_recv between its sections: the receiver gets what was sent. */
    method Read(msg: nat, size: nat) returns (buffer: seq<int>)
      requires Valid() && msg in held && held[msg].Opened?
      ensures |buffer| == (if size > msgSize then msgSize else size)
      ensures |buffer| <= |held[msg].body| ==> buffer == held[msg].body[..|buffer|]
      ensures |held[msg].body| <= |buffer| ==> buffer[..|held[msg].body|] == held[msg].body
    {
      buffer := data[msg][..if size > msgSize then msgSize else size];
      assert data[msg][..|held[msg].body|] == held[msg].body;
    }

    /** The last section of rt_mq_recv. */
    method Return(msg: nat)
      requires Valid() && msg in held && held[msg].Opened?
      modifies this`next, this`free, this`unused, this`held
      ensures Valid() && unused == [msg] + old(unused) && held == old(held) - {msg}
    {
      hide Now().Good;
      Now().ReturnGood(pool, msgSize, msg);
      next := next[msg := free];
      free := msg;
      unused, held := [msg] + unused, held - {msg};
      assert Now() == old(Now()).Return(msg);
    }

    /** rt_thread_timeout for a suspended receiver. */
    method Timeout(t: nat)
      requires Valid()
      modifies this`receivers
      ensures Valid() && receivers == old(receivers).(suspended := Without(old(receivers).suspended, t))
    {
      hide Now().Good;
      AbandonedTold(receivers, t, entry);
      receivers := receivers.Abandoned(t);
    }

    /** rt_mq_control with RT_IPC_CMD_RESET: what is queued becomes free, what is held stays held. */
    method Reset()
      requires Valid()
      modifies this
      ensures Valid() && data == old(data) && held == old(held)
      ensures queued == [] && bodies == [] && unused == Reversed(old(queued)) + old(unused)
      ensures receivers == Queue([], old(receivers).woken)
    {
      hide Now().Good;
      Now().Counted(pool, msgSize);
      receivers := receivers.Cleared();
      while head != NULL
        invariant Tallied().Good(pool, msgSize) && receivers == old(receivers).Cleared()
        invariant data == old(data) && held == old(held)
        invariant Reversed(queued) + unused == Reversed(old(queued)) + old(unused)
        decreases |queued|
      {
        Discard();
      }
      Tallied().Emptied(pool, msgSize);
      entry := 0;
    }

    /** The state, with `entry` as it should be. */
    ghost function Tallied(): (i: Image)
      reads this`next, this`data, this`head, this`tail, this`free, this`entry, this`queued, this`unused, this`held,
            this`bodies
    {
      Now().(entry := |queued|)
    }

    method Discard()
      requires Tallied().Good(pool, msgSize) && head != NULL
      modifies this`next, this`head, this`tail, this`free, this`queued, this`unused, this`bodies
      ensures Tallied().Good(pool, msgSize) && old(queued) != [] && queued == old(queued)[1..]
              && unused == [old(queued)[0]] + old(unused)
    {
      hide Now().Good;
      Tallied().DiscardGood(pool, msgSize);
      var msg := head;
      head := next[msg];
      if tail == msg {
        tail := NULL;
      }
      next := next[msg := free];
      free := msg;
      queued, bodies, unused := queued[1..], bodies[1..], [msg] + unused;
      assert Tallied() == old(Tallied()).Discard();
    }
  }
}
