/** The page allocator under src/slab.c: a list of runs of free pages (rt_page_alloc, rt_page_free). */
module PageRuns {
  import opened Options

  /** `len` free pages from page `start` on. */
  datatype Run = Run(start: nat, len: nat)

  /** Runs in order, none empty, none touching the next. */
  ghost predicate Canon(rs: seq<Run>) {
    rs != [] ==>
      && rs[0].len > 0
      && (|rs| > 1 ==> rs[0].start + rs[0].len < rs[1].start)
      && Canon(rs[1..])
  }

  predicate Within(r: Run, p: nat) {
    r.start <= p < r.start + r.len
  }

  /** Page `p` is free. */
  predicate Has(rs: seq<Run>, p: nat) {
    rs != [] && (Within(rs[0], p) || Has(rs[1..], p))
  }

  lemma {:induction false} HasBeyond(rs: seq<Run>, p: nat)
    requires Canon(rs) && Has(rs, p)
    ensures rs != [] && rs[0].start <= p
    ensures !Within(rs[0], p) ==> |rs| > 1 && rs[1].start <= p
  {
    if !Within(rs[0], p) {
      HasBeyond(rs[1..], p);
    }
  }

  /** The list is a canonical form of the set of free pages. */
  lemma {:induction false} Canonical(rs: seq<Run>, ss: seq<Run>)
    requires Canon(rs) && Canon(ss) && forall p :: Has(rs, p) <==> Has(ss, p)
    ensures rs == ss
  {
    if rs != [] && ss != [] {
      var r, s := rs[0], ss[0];
      assert Has(rs, r.start) && Has(ss, s.start);
      HasBeyond(rs, s.start);
      HasBeyond(ss, r.start);
      assert r.start == s.start;
      SameEnd(rs, ss);
      SameEnd(ss, rs);
      forall p ensures Has(rs[1..], p) <==> Has(ss[1..], p) {
        assert Has(rs, p) <==> Has(ss, p);
        if Has(rs[1..], p) {
          HasBeyond(rs[1..], p);
        }
        if Has(ss[1..], p) {
          HasBeyond(ss[1..], p);
        }
      }
      Canonical(rs[1..], ss[1..]);
    } else if rs != [] {
      assert Has(rs, rs[0].start);
    } else if ss != [] {
      assert Has(ss, ss[0].start);
    }
  }

  lemma SameEnd(rs: seq<Run>, ss: seq<Run>)
    requires Canon(rs) && Canon(ss) && rs != [] && ss != [] && rs[0].start == ss[0].start
    requires forall p :: Has(rs, p) <==> Has(ss, p)
    ensures rs[0].len <= ss[0].len
  {
    var e := ss[0].start + ss[0].len;
    if rs[0].len > ss[0].len {
      assert Has(rs, e);
      HasBeyond(ss, e);
    }
  }

  /** `npages` consecutive free pages from `a` on. */
  ghost predicate AllFree(rs: seq<Run>, a: nat, npages: nat) {
    forall p :: a <= p < a + npages ==> Has(rs, p)
  }

  ghost predicate NoneFree(rs: seq<Run>, a: nat, npages: nat) {
    forall p :: a <= p < a + npages ==> !Has(rs, p)
  }

  /** Consecutive free pages lie in one run. */
  lemma {:induction false} InOneRun(rs: seq<Run>, a: nat, npages: nat)
    requires Canon(rs) && AllFree(rs, a, npages) && npages > 0
    ensures exists r :: r in rs && r.start <= a && a + npages <= r.start + r.len
  {
    assert Has(rs, a);
    HasBeyond(rs, a);
    var e := rs[0].start + rs[0].len;
    if Within(rs[0], a) {
      if e < a + npages {
        assert Has(rs, e);
        HasBeyond(rs, e);
      }
      assert rs[0] in rs;
    } else {
      forall p | a <= p < a + npages ensures Has(rs[1..], p) {
        assert Has(rs, p);
      }
      InOneRun(rs[1..], a, npages);
      var r :| r in rs[1..] && r.start <= a && a + npages <= r.start + r.len;
      assert r in rs;
    }
  }

  /** First fit: the list without the first `npages` pages of the first run that is long enough. */
  function AllocRun(rs: seq<Run>, npages: nat): (r: (Option<nat>, seq<Run>)) {
    if rs == [] then (None, [])
    else if rs[0].len > npages then (Some(rs[0].start), [Run(rs[0].start + npages, rs[0].len - npages)] + rs[1..])
    else if rs[0].len == npages then (Some(rs[0].start), rs[1..])
    else
      var (a, rest) := AllocRun(rs[1..], npages);
      (a, [rs[0]] + rest)
  }

  lemma {:induction false} AllocCanon(rs: seq<Run>, npages: nat)
    requires Canon(rs) && npages > 0
    ensures var (a, ss) := AllocRun(rs, npages);
      && Canon(ss) && (a.None? ==> ss == rs)
      && (ss != [] ==> rs != [] && rs[0].start <= ss[0].start)
  {
    if rs != [] && rs[0].len < npages {
      AllocCanon(rs[1..], npages);
      var (a, ss) := AllocRun(rs, npages);
      assert ss[1..] == AllocRun(rs[1..], npages).1;
    } else if rs != [] && rs[0].len > npages {
      assert AllocRun(rs, npages).1[1..] == rs[1..];
    }
  }

  /** What is handed out is free, and exactly that is no longer free. */
  lemma {:induction false} AllocTakes(rs: seq<Run>, npages: nat, p: nat)
    requires Canon(rs) && npages > 0 && AllocRun(rs, npages).0.Some?
    ensures var (a, ss) := AllocRun(rs, npages);
      && AllFree(rs, a.value, npages)
      && (Has(ss, p) <==> Has(rs, p) && !(a.value <= p < a.value + npages))
  {
    var (a, ss) := AllocRun(rs, npages);
    if rs[0].len < npages {
      AllocTakes(rs[1..], npages, p);
      assert ss[1..] == AllocRun(rs[1..], npages).1;
      assert Has(rs[1..], a.value);
      HasBeyond(rs[1..], a.value);
    } else {
      if Has(rs[1..], p) {
        HasBeyond(rs[1..], p);
      }
      assert rs[0].len > npages ==> ss[1..] == rs[1..];
    }
  }

  /** Allocation fails exactly when there are not that many consecutive free pages. */
  lemma {:induction false} AllocFailsIff(rs: seq<Run>, npages: nat)
    requires Canon(rs) && npages > 0
    ensures AllocRun(rs, npages).0 == None <==> forall a :: !AllFree(rs, a, npages)
  {
    AllocFailsShort(rs, npages);
    if AllocRun(rs, npages).0 == None {
      forall a ensures !AllFree(rs, a, npages) {
        if AllFree(rs, a, npages) {
          InOneRun(rs, a, npages);
        }
      }
    } else {
      AllocTakes(rs, npages, 0);
    }
  }

  /** The pages handed out are the lowest that will do. */
  lemma {:induction false} AllocLowest(rs: seq<Run>, npages: nat, a: nat)
    requires Canon(rs) && npages > 0 && AllocRun(rs, npages).0.Some? && AllFree(rs, a, npages)
    ensures AllocRun(rs, npages).0.value <= a
  {
    assert Has(rs, a);
    HasBeyond(rs, a);
    if rs[0].len < npages {
      InOneRun(rs, a, npages);
      forall p | a <= p < a + npages ensures Has(rs[1..], p) {
        assert Has(rs, p);
        LaterRun(rs, a, npages, p);
      }
      AllocLowest(rs[1..], npages, a);
    }
  }

  lemma LaterRun(rs: seq<Run>, a: nat, npages: nat, p: nat)
    requires Canon(rs) && rs != [] && rs[0].len < npages && a <= p < a + npages && AllFree(rs, a, npages)
    ensures !Within(rs[0], p)
  {
    assert Has(rs, a);
    HasBeyond(rs, a);
    var e := rs[0].start + rs[0].len;
    if Within(rs[0], p) {
      assert Has(rs, e);
      HasBeyond(rs, e);
    }
  }

  lemma {:induction false} AllocFailsShort(rs: seq<Run>, npages: nat)
    ensures AllocRun(rs, npages).0 == None ==> forall r :: r in rs ==> r.len < npages
  {
    if rs != [] && rs[0].len < npages {
      AllocFailsShort(rs[1..], npages);
    }
  }

  /** Gives pages back, joining them to the runs they touch. */
  function FreeRun(rs: seq<Run>, n: nat, npages: nat): (ss: seq<Run>) {
    if rs == [] then [Run(n, npages)]
    else
      var b := rs[0];
      if b.start + b.len == n then
        if |rs| > 1 && n + npages == rs[1].start then [Run(b.start, b.len + npages + rs[1].len)] + rs[2..]
        else [Run(b.start, b.len + npages)] + rs[1..]
      else if b.start == n + npages then [Run(n, npages + b.len)] + rs[1..]
      else if b.start > n + npages then [Run(n, npages)] + rs
      else [b] + FreeRun(rs[1..], n, npages)
  }

  lemma {:induction false} FreeCanon(rs: seq<Run>, n: nat, npages: nat)
    requires Canon(rs) && npages > 0 && NoneFree(rs, n, npages)
    ensures var ss := FreeRun(rs, n, npages);
      Canon(ss) && ss != [] && ss[0].start == if rs == [] || n < rs[0].start then n else rs[0].start
  {
    var ss := FreeRun(rs, n, npages);
    if rs == [] {
      assert ss[1..] == [];
    } else {
      var b := rs[0];
      assert Has(rs, b.start);
      if b.start + b.len == n {
        if |rs| > 1 {
          assert Has(rs[1..], rs[1].start) && Has(rs, rs[1].start);
          assert rs[1..][1..] == rs[2..];
          assert ss[1..] == if n + npages == rs[1].start then rs[2..] else rs[1..];
        }
      } else if b.start == n + npages {
        assert ss[1..] == rs[1..];
      } else if b.start > n + npages {
        assert ss[1..] == rs;
      } else {
        assert !Has(rs, n) by { assert n <= n < n + npages; }
        forall p | n <= p < n + npages ensures !Has(rs[1..], p) {
          assert !Has(rs, p);
        }
        FreeCanon(rs[1..], n, npages);
        assert ss[1..] == FreeRun(rs[1..], n, npages);
      }
    }
  }

  /** Exactly the pages given back become free. */
  lemma {:induction false} FreeGives(rs: seq<Run>, n: nat, npages: nat, p: nat)
    ensures Has(FreeRun(rs, n, npages), p) <==> Has(rs, p) || n <= p < n + npages
  {
    var ss := FreeRun(rs, n, npages);
    if rs == [] {
      assert ss[1..] == [];
    } else {
      var b := rs[0];
      if b.start + b.len == n {
        if |rs| > 1 && n + npages == rs[1].start {
          assert ss[1..] == rs[2..] && rs[1..][1..] == rs[2..];
        } else {
          assert ss[1..] == rs[1..];
        }
      } else if b.start == n + npages {
        assert ss[1..] == rs[1..];
      } else if b.start > n + npages {
        assert ss[1..] == rs;
      } else {
        FreeGives(rs[1..], n, npages, p);
        assert ss[1..] == FreeRun(rs[1..], n, npages);
      }
    }
  }

  /** Runs that are out: none empty, none twice, none overlapping another. */
  ghost predicate Apart(out: seq<Run>) {
    out != [] ==>
      && out[0].len > 0
      && (forall b, p :: b in out[1..] && Within(b, p) ==> !Within(out[0], p))
      && Apart(out[1..])
  }

  ghost predicate Covers(out: seq<Run>, p: nat) {
    exists b :: b in out && Within(b, p)
  }

  /** Allocates runs of the given lengths one after the other, as far as that succeeds. */
  function AllocAll(rs: seq<Run>, sizes: seq<nat>): (r: (seq<Run>, seq<Run>))
    decreases |sizes|
  {
    if sizes == [] then ([], rs)
    else
      var (a, rest) := AllocRun(rs, sizes[0]);
      if a.None? then ([], rs)
      else
        var (out, final) := AllocAll(rest, sizes[1..]);
        ([Run(a.value, sizes[0])] + out, final)
  }

  function FreeAll(rs: seq<Run>, out: seq<Run>): (ss: seq<Run>)
    decreases |out|
  {
    if out == [] then rs else FreeAll(FreeRun(rs, out[0].start, out[0].len), out[1..])
  }

  lemma {:induction false} AllocAllSplits(rs: seq<Run>, sizes: seq<nat>)
    requires Canon(rs) && forall k :: 0 <= k < |sizes| ==> sizes[k] > 0
    ensures var (out, rest) := AllocAll(rs, sizes);
      && Canon(rest) && Apart(out)
      && (forall p :: Has(rs, p) <==> Has(rest, p) || Covers(out, p))
      && (forall p :: Has(rest, p) ==> !Covers(out, p))
    decreases |sizes|
  {
    if sizes != [] && AllocRun(rs, sizes[0]).0.Some? {
      var (a, mid) := AllocRun(rs, sizes[0]);
      var (out, rest) := AllocAll(mid, sizes[1..]);
      var first := Run(a.value, sizes[0]);
      AllocCanon(rs, sizes[0]);
      AllocAllSplits(mid, sizes[1..]);
      assert ([first] + out)[1..] == out;
      forall p ensures Has(mid, p) <==> Has(rs, p) && !Within(first, p) {
        AllocTakes(rs, sizes[0], p);
      }
      forall p ensures Within(first, p) ==> Has(rs, p) {
        AllocTakes(rs, sizes[0], p);
      }
      forall p ensures Covers([first] + out, p) <==> Within(first, p) || Covers(out, p) {
        CoversCons(first, out, p);
      }
      forall b, p | b in out && Within(b, p) ensures !Within(first, p) {
        assert Covers(out, p) && Has(mid, p);
      }
    }
  }

  lemma CoversCons(first: Run, out: seq<Run>, p: nat)
    ensures Covers([first] + out, p) <==> Within(first, p) || Covers(out, p)
  {
    if Within(first, p) {
      assert first in [first] + out;
    }
    if Covers(out, p) {
      var b :| b in out && Within(b, p);
      assert b in [first] + out;
    }
  }

  lemma {:induction false} FreeAllRestores(rs: seq<Run>, out: seq<Run>, orig: seq<Run>)
    requires Canon(rs) && Canon(orig) && Apart(out)
    requires forall p :: Has(orig, p) <==> Has(rs, p) || Covers(out, p)
    requires forall p :: Has(rs, p) ==> !Covers(out, p)
    ensures FreeAll(rs, out) == orig
    decreases |out|
  {
    if out == [] {
      forall p ensures !Covers(out, p) {
      }
      Canonical(rs, orig);
    } else {
      var b, rest := out[0], out[1..];
      var ss := FreeRun(rs, b.start, b.len);
      assert out == [b] + rest;
      forall p ensures Covers(out, p) <==> Within(b, p) || Covers(rest, p) {
        CoversCons(b, rest, p);
      }
      FreeCanon(rs, b.start, b.len);
      forall p ensures Has(ss, p) <==> Has(rs, p) || Within(b, p) {
        FreeGives(rs, b.start, b.len, p);
      }
      forall p | Has(ss, p) ensures !Covers(rest, p) {
        assert Has(rs, p) ==> !Covers(out, p);
      }
      FreeAllRestores(ss, rest, orig);
    }
  }

  lemma {:induction false} ApartDistinct(out: seq<Run>, b: Run)
    requires Apart(out)
    ensures multiset(out)[b] <= 1
  {
    if out == [] {
    } else {
      assert out == [out[0]] + out[1..];
      ApartDistinct(out[1..], b);
      if b == out[0] && b in out[1..] {
        assert Within(b, b.start);
      }
    }
  }

  lemma {:induction false} ApartPairs(out: seq<Run>, a: Run, b: Run, p: nat)
    requires Apart(out) && a in out && b in out && a != b && Within(a, p)
    ensures !Within(b, p) && a.len > 0
  {
    if a != out[0] && b != out[0] {
      ApartPairs(out[1..], a, b, p);
    }
  }

  lemma {:induction false} ApartLen(out: seq<Run>, a: Run)
    requires Apart(out) && a in out
    ensures a.len > 0
  {
    if a == out[0] {
    } else {
      ApartLen(out[1..], a);
    }
  }

  /** The order does not matter to being apart. */
  lemma {:induction false} ApartAnyOrder(out: seq<Run>, order: seq<Run>)
    requires Apart(out) && (forall b :: b in order ==> b in out) && forall b :: multiset(order)[b] <= 1
    ensures Apart(order)
    decreases |order|
  {
    if order == [] {
    } else {
      var a, rest := order[0], order[1..];
      assert order == [a] + rest;
      assert multiset(order)[a] == 1 + multiset(rest)[a];
      forall b ensures multiset(rest)[b] <= 1 {
        assert multiset(order)[b] <= 1;
      }
      ApartAnyOrder(out, rest);
      ApartLen(out, a);
      forall b, p | b in rest && Within(b, p) ensures !Within(a, p) {
        assert b in multiset(rest);
        ApartPairs(out, b, a, p);
      }
    }
  }

  /** However the pages were handed out, giving them all back in any order restores the list. */
  lemma RestoredInAnyOrder(rs: seq<Run>, sizes: seq<nat>, order: seq<Run>)
    requires Canon(rs) && forall k :: 0 <= k < |sizes| ==> sizes[k] > 0
    requires multiset(order) == multiset(AllocAll(rs, sizes).0)
    ensures FreeAll(AllocAll(rs, sizes).1, order) == rs
  {
    var (out, rest) := AllocAll(rs, sizes);
    AllocAllSplits(rs, sizes);
    forall b ensures b in order <==> b in out {
      assert b in multiset(order) <==> b in multiset(out);
    }
    forall b ensures multiset(order)[b] <= 1 {
      ApartDistinct(out, b);
    }
    ApartAnyOrder(out, order);
    forall p ensures Covers(order, p) <==> Covers(out, p) {
    }
    FreeAllRestores(rest, order, rs);
  }

  /** Both searches leave the first `k` runs as they are. */
  ghost predicate AllocAfter(rs: seq<Run>, k: nat, npages: nat) {
    k <= |rs| && AllocRun(rs, npages) == (AllocRun(rs[k..], npages).0, rs[..k] + AllocRun(rs[k..], npages).1)
  }

  lemma AllocStart(rs: seq<Run>, npages: nat)
    ensures AllocAfter(rs, 0, npages)
  {
    assert rs[0..] == rs && rs[..0] + AllocRun(rs, npages).1 == AllocRun(rs, npages).1;
  }

  lemma AllocStep(rs: seq<Run>, k: nat, npages: nat)
    requires AllocAfter(rs, k, npages) && k < |rs| && rs[k].len < npages
    ensures AllocAfter(rs, k + 1, npages)
  {
    assert rs[k..][1..] == rs[k + 1..] && rs[k..][0] == rs[k];
    assert rs[..k] + ([rs[k]] + AllocRun(rs[k + 1..], npages).1) == rs[..k + 1] + AllocRun(rs[k + 1..], npages).1;
  }

  lemma AllocHit(rs: seq<Run>, k: nat, npages: nat)
    requires AllocAfter(rs, k, npages) && (k < |rs| ==> rs[k].len >= npages)
    ensures k == |rs| ==> AllocRun(rs, npages) == (None, rs)
    ensures k < |rs| && rs[k].len > npages ==>
      AllocRun(rs, npages) == (Some(rs[k].start), rs[..k] + [Run(rs[k].start + npages, rs[k].len - npages)]
                               + rs[k + 1..])
    ensures k < |rs| && rs[k].len == npages ==> AllocRun(rs, npages) == (Some(rs[k].start), rs[..k] + rs[k + 1..])
  {
    if k < |rs| {
      assert rs[k..][1..] == rs[k + 1..] && rs[k..][0] == rs[k];
      var cut := Run(rs[k].start + npages, rs[k].len - npages);
      assert rs[..k] + ([cut] + rs[k + 1..]) == rs[..k] + [cut] + rs[k + 1..];
    } else {
      assert rs[k..] == [] && rs[..k] + [] == rs;
    }
  }

  ghost predicate FreeAfter(rs: seq<Run>, k: nat, n: nat, npages: nat) {
    k <= |rs| && FreeRun(rs, n, npages) == rs[..k] + FreeRun(rs[k..], n, npages)
  }

  lemma FreeStep(rs: seq<Run>, k: nat, n: nat, npages: nat)
    requires FreeAfter(rs, k, n, npages) && k < |rs| && rs[k].start + rs[k].len != n && rs[k].start < n + npages
    ensures FreeAfter(rs, k + 1, n, npages)
  {
    hide FreeRun;
    FreePast(rs[k..], n, npages);
    assert rs[k..][1..] == rs[k + 1..] && rs[k..][0] == rs[k];
    assert rs[..k] + ([rs[k]] + FreeRun(rs[k + 1..], n, npages)) == rs[..k + 1] + FreeRun(rs[k + 1..], n, npages);
  }

  lemma FreePast(rs: seq<Run>, n: nat, npages: nat)
    requires rs != [] && rs[0].start + rs[0].len != n && rs[0].start < n + npages
    ensures FreeRun(rs, n, npages) == [rs[0]] + FreeRun(rs[1..], n, npages)
  {
  }

  lemma FreeHit(rs: seq<Run>, k: nat, n: nat, npages: nat)
    requires FreeAfter(rs, k, n, npages)
    ensures k == |rs| ==> FreeRun(rs, n, npages) == rs + [Run(n, npages)]
    ensures k < |rs| && rs[k].start + rs[k].len == n && k + 1 < |rs| && n + npages == rs[k + 1].start ==>
      FreeRun(rs, n, npages) == rs[..k] + [Run(rs[k].start, rs[k].len + npages + rs[k + 1].len)] + rs[k + 2..]
    ensures k < |rs| && rs[k].start + rs[k].len == n && !(k + 1 < |rs| && n + npages == rs[k + 1].start) ==>
      FreeRun(rs, n, npages) == rs[..k] + [Run(rs[k].start, rs[k].len + npages)] + rs[k + 1..]
    ensures k < |rs| && rs[k].start + rs[k].len != n && rs[k].start == n + npages ==>
      FreeRun(rs, n, npages) == rs[..k] + [Run(n, npages + rs[k].len)] + rs[k + 1..]
    ensures k < |rs| && rs[k].start + rs[k].len != n && rs[k].start > n + npages ==>
      FreeRun(rs, n, npages) == rs[..k] + [Run(n, npages)] + rs[k..]
  {
    if k < |rs| {
      assert rs[k..][1..] == rs[k + 1..] && rs[k..][0] == rs[k];
      if k + 1 < |rs| {
        assert rs[k..][2..] == rs[k + 2..] && rs[k..][1] == rs[k + 1];
      }
    } else {
      assert rs[k..] == [] && rs[..k] == rs;
    }
  }

  /** The list as the allocator keeps it. */
  class PageList {
    var runs: seq<Run>

    ghost predicate Valid()
      reads this
    {
      Canon(runs)
    }

    constructor (start: nat, npages: nat)
      requires npages > 0
      ensures Valid() && runs == [Run(start, npages)]
    {
      runs := [Run(start, npages)];
    }

    /** rt_page_alloc. */
    method Alloc(npages: nat) returns (r: Option<nat>)
      requires Valid()
      modifies this
      ensures Valid()
      ensures npages == 0 ==> r == None && runs == old(runs)
      ensures npages > 0 ==> (r, runs) == AllocRun(old(runs), npages)
    {
      hide Canon, AllocRun;
      if npages == 0 {
        return None;
      }
      AllocCanon(runs, npages);
      var k := 0;
      hide AllocAfter;
      AllocStart(runs, npages);
      while k < |runs|
        invariant 0 <= k <= |runs| && runs == old(runs) && AllocAfter(runs, k, npages)
      {
        var b := runs[k];
        if b.len > npages {
          AllocHit(runs, k, npages);
          runs := runs[..k] + [Run(b.start + npages, b.len - npages)] + runs[k + 1..];
          return Some(b.start);
        }
        if b.len == npages {
          AllocHit(runs, k, npages);
          runs := runs[..k] + runs[k + 1..];
          return Some(b.start);
        }
        AllocStep(runs, k, npages);
        k := k + 1;
      }
      AllocHit(runs, k, npages);
      r := None;
    }

    /** rt_page_free of pages that are not free. */
    method Free(n: nat, npages: nat)
      requires Valid() && npages > 0 && NoneFree(runs, n, npages)
      modifies this
      ensures Valid() && runs == FreeRun(old(runs), n, npages)
    {
      hide Canon, FreeRun;
      FreeCanon(runs, n, npages);
      var k := 0;
      assert FreeAfter(runs, 0, n, npages);
      hide FreeAfter;
      while k < |runs|
        invariant 0 <= k <= |runs| && runs == old(runs) && FreeAfter(runs, k, n, npages)
      {
        var b := runs[k];
        FreeHit(runs, k, n, npages);
        if b.start + b.len == n {
          if k + 1 < |runs| && n + npages == runs[k + 1].start {
            runs := runs[..k] + [Run(b.start, b.len + npages + runs[k + 1].len)] + runs[k + 2..];
          } else {
            runs := runs[..k] + [Run(b.start, b.len + npages)] + runs[k + 1..];
          }
          return;
        }
        if b.start == n + npages {
          runs := runs[..k] + [Run(n, npages + b.len)] + runs[k + 1..];
          return;
        }
        if b.start > n + npages {
          runs := runs[..k] + [Run(n, npages)] + runs[k..];
          return;
        }
        FreeStep(runs, k, n, npages);
        k := k + 1;
      }
      FreeHit(runs, k, n, npages);
      runs := runs + [Run(n, npages)];
    }
  }
}
