/** 32 flags in a word. */
module Flags {
  import opened FirstBit

  type Flags = bv32

  /** Flag `k` is set. */
  predicate On(w: Flags, k: bv8) {
    k < 32 && Has32(w, k)
  }

  function Common(a: Flags, b: Flags): (r: Flags) {
    a & b
  }

  function Less(a: Flags, b: Flags): (r: Flags) {
    a & !b
  }

  predicate Part(a: Flags, b: Flags) {
    a & b == a
  }

  /** The operations flag by flag. */
  lemma FlagByFlag(a: Flags, b: Flags, k: bv8)
    ensures On(Common(a, b), k) <==> On(a, k) && On(b, k)
    ensures On(Less(a, b), k) <==> On(a, k) && !On(b, k)
    ensures !On(0, k)
  {
    hide Common, Less, Has32, Touches, Single, Bit32;
    if k < 32 {
      OneFlag(a, k);
      OneFlag(b, k);
      OnTouches(a, k);
      OnTouches(b, k);
      OnTouches(Common(a, b), k);
      OnTouches(Less(a, b), k);
      CommonTouches(a, b, Bit32(k));
      LessTouches(a, b, Bit32(k));
      Zero32(k);
    }
  }

  predicate Touches(w: Flags, m: Flags) {
    w & m != 0
  }

  /** `m` is one flag as far as `w` can tell. */
  predicate Single(w: Flags, m: Flags) {
    m != 0 && (w & m == 0 || w & m == m)
  }

  lemma OneFlag(w: Flags, k: bv8)
    requires k < 32
    ensures Single(w, Bit32(k))
  {
  }

  lemma OnTouches(w: Flags, k: bv8)
    requires k < 32
    ensures Has32(w, k) <==> Touches(w, Bit32(k))
  {
    hide Bit32;
  }

  lemma CommonTouches(a: Flags, b: Flags, m: Flags)
    requires Single(a, m) && Single(b, m)
    ensures Touches(Common(a, b), m) <==> Touches(a, m) && Touches(b, m)
  {
  }

  lemma LessTouches(a: Flags, b: Flags, m: Flags)
    requires Single(a, m) && Single(b, m)
    ensures Touches(Less(a, b), m) <==> Touches(a, m) && !Touches(b, m)
  {
    hide Touches, Less, Single;
    if Touches(b, m) {
      LessCleared(a, b, m);
    } else {
      LessKept(a, b, m);
    }
  }

  lemma LessKept(a: Flags, b: Flags, m: Flags)
    requires !Touches(b, m)
    ensures Touches(Less(a, b), m) <==> Touches(a, m)
  {
    assert Less(a, b) & m == a & m;
  }

  lemma LessCleared(a: Flags, b: Flags, m: Flags)
    requires Touches(b, m) && Single(b, m)
    ensures !Touches(Less(a, b), m)
  {
    assert b & m == m;
  }

  /** A word that is not 0 has a flag. */
  lemma SomeFlag(w: Flags)
    ensures w != 0 <==> exists k :: On(w, k)
  {
    hide Has32, Ffs;
    if w == 0 {
      forall k ensures !On(w, k) {
        FlagByFlag(0, 0, k);
      }
    } else {
      FfsRight(w, 0);
      assert On(w, Ffs(w) - 1);
    }
  }

  lemma PartIs(a: Flags, b: Flags)
    ensures Part(a, b) <==> Less(a, b) == 0
  {
  }

  lemma PartByFlag(a: Flags, b: Flags)
    ensures Part(a, b) <==> forall k :: On(a, k) ==> On(b, k)
  {
    hide On, Part, Less;
    PartIs(a, b);
    SomeFlag(Less(a, b));
    forall k ensures On(Less(a, b), k) <==> On(a, k) && !On(b, k) {
      FlagByFlag(a, b, k);
    }
  }

  lemma PartOfPart(x: Flags, l: Flags, s: Flags)
    requires Part(x, l) && Part(l, s)
    ensures Part(x, s)
  {
    calc {
      x & s;
      (x & l) & s;
      x & (l & s);
      x & l;
      x;
    }
  }

  lemma NothingInPart(x: Flags, l: Flags, s: Flags)
    requires Common(x, s) == 0 && Part(l, s)
    ensures Common(x, l) == 0
  {
    calc {
      x & l;
      x & (l & s);
      (x & s) & l;
      0 & l;
      0;
    }
  }

  lemma CommonIsPart(x: Flags, s: Flags)
    ensures Part(Common(x, s), x)
    ensures Common(x, s) == Common(s, x)
    ensures Part(x, s) <==> Common(s, x) == x
  {
  }

  lemma LessIsPart(s: Flags, x: Flags)
    ensures Part(Less(s, x), s)
    ensures Part(s, s)
  {
  }

  /** Taking away what is there takes all of it away. */
  lemma LessCommon(s: Flags, x: Flags)
    ensures Less(s, Common(x, s)) == Less(s, x)
  {
  }
}

/** An event (rt_event_send, rt_event_recv, rt_event_control in src/ipc.c). Every method is one section
    with interrupts disabled. */
module EventModel {
  import opened Flags
  import opened Lists

  /** What a thread asks for: all of the flags or any of them, and whether it takes them away. */
  datatype Want = Want(bits: Flags, all: bool, clear: bool)

  predicate Met(w: Want, flags: Flags) {
    if w.all then Part(w.bits, flags) else Common(w.bits, flags) != 0
  }

  function Received(w: Want, flags: Flags): (bits: Flags) {
    Common(w.bits, flags)
  }

  function Remaining(w: Want, flags: Flags): (left: Flags) {
    if w.clear then Less(flags, w.bits) else flags
  }

  /** A thread that asks for all goes on if and only if every flag it asks for is set, one that asks for any
      if and only if one of them is. It receives the flags it asks for that are set, and takes exactly those
      it asks for away if it clears. */
  lemma ByFlag(w: Want, flags: Flags)
    ensures w.all ==> (Met(w, flags) <==> forall k :: On(w.bits, k) ==> On(flags, k))
    ensures !w.all ==> (Met(w, flags) <==> exists k :: On(w.bits, k) && On(flags, k))
    ensures forall k :: On(Received(w, flags), k) <==> On(w.bits, k) && On(flags, k)
    ensures forall k :: On(Remaining(w, flags), k) <==> On(flags, k) && !(w.clear && On(w.bits, k))
  {
    hide On, Part, Less, Common;
    PartByFlag(w.bits, flags);
    SomeFlag(Common(w.bits, flags));
    forall k
      ensures On(Common(w.bits, flags), k) <==> On(w.bits, k) && On(flags, k)
      ensures On(Less(flags, w.bits), k) <==> On(flags, k) && !On(w.bits, k)
    {
      FlagByFlag(w.bits, flags, k);
      FlagByFlag(flags, w.bits, k);
    }
  }

  lemma RemainingPart(w: Want, flags: Flags)
    ensures Part(Remaining(w, flags), flags)
  {
    hide Part, Less;
    LessIsPart(flags, w.bits);
  }

  /** What is received is part of what was asked for: all of it, or some of it. */
  lemma ReceivedRight(w: Want, flags: Flags)
    requires Met(w, flags)
    ensures Part(Received(w, flags), w.bits)
    ensures if w.all then Received(w, flags) == w.bits else Received(w, flags) != 0
  {
    CommonIsPart(w.bits, flags);
  }

  /** Fewer flags meet fewer wants. */
  lemma FewerMet(w: Want, flags: Flags, left: Flags)
    requires Part(left, flags) && !Met(w, flags)
    ensures !Met(w, left)
  {
    hide Part, Common;
    if w.all {
      if Part(w.bits, left) {
        PartOfPart(w.bits, left, flags);
      }
    } else {
      NothingInPart(w.bits, left, flags);
    }
  }

  type Wants = map<nat, Want>

  /** Who still waits, the wants with what the others received, and the flags that are left. */
  datatype Service = Service(still: seq<nat>, wants: Wants, left: Flags)

  ghost predicate Known(ws: seq<nat>, wants: Wants) {
    forall t :: t in ws ==> t in wants
  }

  /** The threads of the list one after the other, each as if it called rt_event_recv just then. */
  ghost function Serve(ws: seq<nat>, wants: Wants, flags: Flags): (r: Service)
    requires Known(ws, wants)
    ensures r.wants.Keys == wants.Keys
    ensures forall t :: t in r.still ==> t in ws
    decreases |ws|
  {
    if ws == [] then Service([], wants, flags)
    else
      var w := wants[ws[0]];
      if Met(w, flags) then
        Serve(ws[1..], wants[ws[0] := w.(bits := Received(w, flags))], Remaining(w, flags))
      else
        var r := Serve(ws[1..], wants, flags);
        r.(still := [ws[0]] + r.still)
  }

  ghost predicate NoneMet(ws: seq<nat>, wants: Wants, flags: Flags) {
    forall t :: t in ws && t in wants ==> !Met(wants[t], flags)
  }

  lemma {:induction false} ServeShrinks(ws: seq<nat>, wants: Wants, flags: Flags)
    requires Known(ws, wants)
    ensures Part(Serve(ws, wants, flags).left, flags)
    decreases |ws|
  {
    hide Part, Met, Remaining, Received;
    if ws == [] {
      LessIsPart(flags, 0);
    } else {
      var w := wants[ws[0]];
      if Met(w, flags) {
        ServeShrinks(ws[1..], wants[ws[0] := w.(bits := Received(w, flags))], Remaining(w, flags));
        RemainingPart(w, flags);
        PartOfPart(Serve(ws, wants, flags).left, Remaining(w, flags), flags);
      } else {
        ServeShrinks(ws[1..], wants, flags);
      }
    }
  }

  /** A thread that goes on received all of the flags it asked for, or some of them. */
  ghost predicate Satisfied(w: Want, got: Want) {
    && got == w.(bits := got.bits)
    && Part(got.bits, w.bits)
    && if w.all then got.bits == w.bits else got.bits != 0
  }

  lemma {:induction false} ServeSplits(ws: seq<nat>, wants: Wants, flags: Flags)
    requires Known(ws, wants) && Distinct(ws)
    ensures var r := Serve(ws, wants, flags);
            && Distinct(r.still)
            && (forall t :: t in wants && (t in r.still || t !in ws) ==> r.wants[t] == wants[t])
            && (forall t :: t in ws && t !in r.still ==> Satisfied(wants[t], r.wants[t]))
    decreases |ws|
  {
    hide Part, Met, Remaining, Received;
    if ws == [] {
    } else {
      var w := wants[ws[0]];
      if Met(w, flags) {
        ServeSplits(ws[1..], wants[ws[0] := w.(bits := Received(w, flags))], Remaining(w, flags));
        ReceivedRight(w, flags);
      } else {
        ServeSplits(ws[1..], wants, flags);
        assert Serve(ws, wants, flags).still[1..] == Serve(ws[1..], wants, flags).still;
      }
    }
  }

  /** The waiters are served in list order: those behind find what those before have left. */
  lemma {:induction false} ServeInOrder(us: seq<nat>, vs: seq<nat>, wants: Wants, flags: Flags)
    requires Known(us + vs, wants)
    ensures Known(us, wants) && Known(vs, Serve(us, wants, flags).wants)
    ensures var r := Serve(us, wants, flags);
            var q := Serve(vs, r.wants, r.left);
            Serve(us + vs, wants, flags) == Service(r.still + q.still, q.wants, q.left)
    decreases |us|
  {
    assert forall t :: t in us || t in vs ==> t in us + vs;
    hide Met, Remaining, Received;
    if us == [] {
      assert us + vs == vs;
    } else {
      var w := wants[us[0]];
      assert (us + vs)[1..] == us[1..] + vs;
      if Met(w, flags) {
        ServeInOrder(us[1..], vs, wants[us[0] := w.(bits := Received(w, flags))], Remaining(w, flags));
      } else {
        ServeInOrder(us[1..], vs, wants, flags);
        var r := Serve(us[1..], wants, flags);
        var q := Serve(vs, r.wants, r.left);
        assert [us[0]] + (r.still + q.still) == ([us[0]] + r.still) + q.still;
      }
    }
  }

  /** One waiter is served if and only if its condition is met, and nobody else is touched. */
  lemma ServeOne(t: nat, wants: Wants, flags: Flags)
    requires t in wants
    ensures var r := Serve([t], wants, flags);
            if Met(wants[t], flags) then
              && r.still == [] && r.left == Remaining(wants[t], flags)
              && r.wants == wants[t := wants[t].(bits := Received(wants[t], flags))]
            else
              r == Service([t], wants, flags)
  {
    assert [t][1..] == [];
    hide Met, Remaining, Received;
  }

  /** Nobody who still waits could go on, although later threads of the list took flags away. */
  lemma {:induction false} ServeLeavesNoneMet(ws: seq<nat>, wants: Wants, flags: Flags)
    requires Known(ws, wants) && Distinct(ws)
    ensures NoneMet(Serve(ws, wants, flags).still, wants, Serve(ws, wants, flags).left)
    decreases |ws|
  {
    hide Part, Met, Remaining, Received;
    if ws == [] {
    } else {
      var w, r := wants[ws[0]], Serve(ws, wants, flags);
      if Met(w, flags) {
        ServeLeavesNoneMet(ws[1..], wants[ws[0] := w.(bits := Received(w, flags))], Remaining(w, flags));
      } else {
        ServeLeavesNoneMet(ws[1..], wants, flags);
        ServeShrinks(ws[1..], wants, flags);
        FewerMet(w, flags, r.left);
      }
    }
  }

  lemma FewerLeaveNoneMet(ws: seq<nat>, wants: Wants, flags: Flags, w: Want)
    requires NoneMet(ws, wants, flags)
    ensures NoneMet(ws, wants, Remaining(w, flags))
  {
    hide Met, Part, Remaining;
    RemainingPart(w, flags);
    forall t | t in ws && t in wants ensures !Met(wants[t], Remaining(w, flags)) {
      FewerMet(wants[t], flags, Remaining(w, flags));
    }
  }

  lemma BlockedUnmet(ws: seq<nat>, wants: Wants, flags: Flags, t: nat, w: Want, k: nat)
    requires Distinct(ws) && Known(ws, wants) && NoneMet(ws, wants, flags) && t !in ws && !Met(w, flags) && k <= |ws|
    ensures var ws' := ws[..k] + [t] + ws[k..];
            Distinct(ws') && Known(ws', wants[t := w]) && NoneMet(ws', wants[t := w], flags)
            && forall x :: x in ws' <==> x in ws || x == t
  {
    hide Met, Distinct;
    assert ws[..k] + ws[k..] == ws;
    InsertDistinct(ws[..k], ws[k..], t);
  }

  /** What the code does to a thread whose want is met is what rt_event_recv does. */
  lemma MetEffect(w: Want, flags: Flags)
    requires Met(w, flags)
    ensures Received(w, flags) == if w.all then w.bits else Common(w.bits, flags)
    ensures Remaining(w, flags) == if w.clear then Less(flags, Received(w, flags)) else flags
  {
    ReceivedRight(w, flags);
    LessCommon(flags, w.bits);
  }

  /** Half way: `done` has been looked at and stays, `rest` is still to be looked at. */
  ghost predicate Scanning(all: Service, done: seq<nat>, rest: seq<nat>, wants: Wants, flags: Flags) {
    && Known(done, wants) && Known(rest, wants)
    && var r := Serve(rest, wants, flags);
    all == Service(done + r.still, r.wants, r.left)
  }

  lemma ScanStart(ws: seq<nat>, wants: Wants, flags: Flags)
    requires Known(ws, wants)
    ensures Scanning(Serve(ws, wants, flags), ws[..0], ws, wants, flags)
  {
    assert ws[..0] + Serve(ws, wants, flags).still == Serve(ws, wants, flags).still;
  }

  lemma ScanMet(all: Service, done: seq<nat>, rest: seq<nat>, wants: Wants, flags: Flags)
    requires Scanning(all, done, rest, wants, flags) && rest != [] && rest[0] in wants && Met(wants[rest[0]], flags)
    ensures var w := wants[rest[0]];
            Scanning(all, done, rest[1..], wants[rest[0] := w.(bits := Received(w, flags))], Remaining(w, flags))
  {
  }

  lemma ScanUnmet(all: Service, done: seq<nat>, rest: seq<nat>, wants: Wants, flags: Flags)
    requires Scanning(all, done, rest, wants, flags) && rest != [] && rest[0] in wants && !Met(wants[rest[0]], flags)
    ensures Scanning(all, done + [rest[0]], rest[1..], wants, flags)
  {
    var r := Serve(rest[1..], wants, flags);
    assert done + ([rest[0]] + r.still) == done + [rest[0]] + r.still;
  }

  lemma ScanDone(ws: seq<nat>, wants0: Wants, flags0: Flags, all: Service, wants: Wants, flags: Flags, done: seq<nat>)
    requires Known(ws, wants0) && Distinct(ws) && (forall t :: t in ws ==> wants0[t].bits != 0)
             && all == Serve(ws, wants0, flags0)
    requires Scanning(all, done, [], wants, flags)
    ensures all == Service(done, wants, flags)
    ensures Distinct(done) && Known(done, wants) && (forall t :: t in done ==> wants[t].bits != 0)
            && NoneMet(done, wants, flags)
  {
    hide Met, Distinct;
    ServeSplits(ws, wants0, flags0);
    ServeLeavesNoneMet(ws, wants0, flags0);
  }

  datatype Outcome = Got(bits: Flags) | Refused | TimedOut | Blocked

  class Event {
    var flags: Flags
    var waiters: seq<nat>

    /** `event_set` and `event_info` of every thread. */
    var wants: Wants

    ghost predicate Valid()
      reads this
    {
      && Distinct(waiters) && Known(waiters, wants)
      && (forall t :: t in waiters ==> wants[t].bits != 0)
      && NoneMet(waiters, wants, flags)
    }

    constructor ()
      ensures Valid() && flags == 0 && waiters == []
    {
      flags, waiters, wants := 0, [], map[];
    }

    /** rt_event_recv; `wait` says that the timeout is not 0. */
    method Recv(t: nat, w: Want, wait: bool) returns (r: Outcome)
      requires Valid() && t !in waiters
      modifies this
      ensures Valid()
      ensures r == if w.bits == 0 then Refused else if Met(w, old(flags)) then Got(Received(w, old(flags)))
              else if wait then Blocked else TimedOut
      ensures flags == if r.Got? then Remaining(w, old(flags)) else old(flags)
      ensures if r.Blocked? then wants == old(wants)[t := w] && exists k ::
                0 <= k <= |old(waiters)| && waiters == old(waiters)[..k] + [t] + old(waiters)[k..]
              else wants == old(wants) && waiters == old(waiters)
    {
      hide Part, Common, Less, NoneMet, Distinct;
      if w.bits == 0 {
        return Refused;
      }
      var ok := false;
      CommonIsPart(w.bits, flags);
      if w.all {
        if Common(flags, w.bits) == w.bits {
          ok := true;
        }
      } else if Common(flags, w.bits) != 0 {
        ok := true;
      }
      if ok {
        r := Got(Common(flags, w.bits));
        if w.clear {
          flags := Less(flags, w.bits);
        }
        FewerLeaveNoneMet(waiters, wants, old(flags), w);
      } else if !wait {
        r := TimedOut;
      } else {
        var k :| 0 <= k <= |waiters|;
        BlockedUnmet(waiters, wants, flags, t, w, k);
        wants := wants[t := w];
        waiters := waiters[..k] + [t] + waiters[k..];
        r := Blocked;
      }
    }

    /** rt_event_send: the scan changes the set and the list as it goes. */
    method Send(bits: Flags) returns (ok: bool)
      requires Valid()
      modifies this
      ensures Valid() && ok == (bits != 0)
      ensures !ok ==> flags == old(flags) && waiters == old(waiters) && wants == old(wants)
      ensures ok ==> Service(waiters, wants, flags) == Serve(old(waiters), old(wants), old(flags) | bits)
    {
      if bits == 0 {
        return false;
      }
      flags := flags | bits;
      Scan();
      ok := true;
    }

    method Scan()
      requires Distinct(waiters) && Known(waiters, wants) && forall t :: t in waiters ==> wants[t].bits != 0
      modifies this
      ensures Valid()
      ensures Service(waiters, wants, flags) == Serve(old(waiters), old(wants), old(flags))
    {
      hide Part, Common, Less, Distinct, Serve, Scanning, NoneMet;
      ghost var all, rest := Serve(waiters, wants, flags), waiters;
      var n := 0;
      ScanStart(waiters, wants, flags);
      while n < |waiters|
        invariant 0 <= n <= |waiters| && waiters[n..] == rest && Known(waiters, wants)
        invariant Scanning(all, waiters[..n], rest, wants, flags)
        decreases |rest|
      {
        var t := waiters[n];
        var w := wants[t];
        ghost var done := waiters[..n];
        assert t == rest[0];
        var met := if w.all then Part(w.bits, flags) else Common(w.bits, flags) != 0;
        if met {
          ScanMet(all, done, rest, wants, flags);
          MetEffect(w, flags);
          ghost var next := wants[t := w.(bits := Received(w, flags))];
          if !w.all {
            wants := wants[t := w.(bits := Common(w.bits, flags))];
          }
          assert wants == next;
          waiters := waiters[..n] + waiters[n + 1..];
          if w.clear {
            flags := Less(flags, wants[t].bits);
          }
          assert waiters[..n] == done && waiters[n..] == rest[1..];
        } else {
          ScanUnmet(all, done, rest, wants, flags);
          n := n + 1;
          assert waiters[..n] == done + [t];
        }
        rest := rest[1..];
      }
      assert waiters[..n] == waiters;
      ScanDone(old(waiters), old(wants), old(flags), all, wants, flags, waiters);
    }

    /** rt_thread_timeout for a suspended thread. */
    method Timeout(t: nat)
      requires Valid()
      modifies this`waiters
      ensures Valid() && waiters == Without(old(waiters), t)
    {
      hide Met;
      WithoutDistinct(waiters, t);
      waiters := Without(waiters, t);
    }

    /** rt_event_control with RT_IPC_CMD_RESET. */
    method Reset()
      requires Valid()
      modifies this`waiters, this`flags
      ensures Valid() && waiters == [] && flags == 0
    {
      waiters, flags := [], 0;
    }
  }
}
