/** Lazily computed values with a cache, as tools/kconfiglib.py keeps them on symbols and choices. */
module LazyCache {

  /** What an item has: the visibility, the tristate value and the selection are computed and
      cached; the user value and the user selection are given. */
  datatype Kind = Vis | Tri | Sel | User | UserSel

  datatype Attr = Attr(item: nat, kind: Kind) {
    predicate Given() {
      kind == User || kind == UserSel
    }
  }

  /** An evaluation: it ends in a value, or reads an attribute and goes on according to
      whether that equals `on`. What is read depends on what has been read before. */
  datatype Tree = Ret(v: int) | Case(a: Attr, on: int, eq: Tree, ne: Tree)

  function Reads(t: Tree): (s: set<Attr>) {
    match t
    case Ret(_) => {}
    case Case(a, _, eq, ne) => {a} + Reads(eq) + Reads(ne)
  }

  /** How every attribute is evaluated, a rank, and what the user gave. */
  datatype System = System(tree: Attr -> Tree, rank: Attr -> nat, given: Attr -> int)

  /** The value from scratch. */
  ghost function Value(s: System, a: Attr): (v: int)
    decreases s.rank(a), 1, Ret(0)
  {
    if a.Given() then s.given(a) else Follow(s, s.tree(a), s.rank(a))
  }

  /** Evaluation, cut short where the rank does not decrease. */
  ghost function Follow(s: System, t: Tree, r: nat): (v: int)
    decreases r, 0, t
  {
    match t
    case Ret(v) => v
    case Case(a, on, eq, ne) =>
      if s.rank(a) >= r then 0
      else if Value(s, a) == on then Follow(s, eq, r)
      else Follow(s, ne, r)
  }

  /** The rank decreases along what the evaluation reads, in the end. */
  ghost predicate Below(s: System, t: Tree, r: nat) {
    match t
    case Ret(_) => true
    case Case(a, on, eq, ne) => s.rank(a) < r && Below(s, if Value(s, a) == on then eq else ne, r)
  }

  /** No evaluation comes back to itself. Branches that are not taken may read what they like. */
  ghost predicate Ranked(s: System) {
    forall a {:trigger s.tree(a)} :: Below(s, s.tree(a), s.rank(a))
  }

  /** What an evaluation reads, in the end. */
  ghost function Trail(s: System, t: Tree): (w: set<Attr>)
    ensures w <= Reads(t)
  {
    match t
    case Ret(_) => {}
    case Case(a, on, eq, ne) => {a} + if Value(s, a) == on then Trail(s, eq) else Trail(s, ne)
  }

  ghost function Needs(s: System, a: Attr): (w: set<Attr>)
    ensures w <= Reads(s.tree(a))
  {
    Trail(s, s.tree(a))
  }

  /** As long as no evaluation comes back to itself, values do not depend on the rank. */
  lemma {:induction false} RankIrrelevant(s: System, t: System, a: Attr)
    requires Ranked(s) && Ranked(t) && s == t.(rank := s.rank)
    ensures Value(s, a) == Value(t, a) && Needs(s, a) == Needs(t, a)
    decreases s.rank(a), 1, Ret(0)
  {
    assert Below(s, s.tree(a), s.rank(a)) && Below(t, t.tree(a), t.rank(a));
    RankIrrelevantWalk(s, t, s.tree(a), s.rank(a), t.rank(a));
  }

  lemma {:induction false} RankIrrelevantWalk(s: System, t: System, w: Tree, r: nat, q: nat)
    requires Ranked(s) && Ranked(t) && s == t.(rank := s.rank) && Below(s, w, r) && Below(t, w, q)
    ensures Follow(s, w, r) == Follow(t, w, q) && Trail(s, w) == Trail(t, w)
    decreases r, 0, w
  {
    match w
    case Ret(_) =>
    case Case(a, on, eq, ne) =>
      RankIrrelevant(s, t, a);
      RankIrrelevantWalk(s, t, if Value(s, a) == on then eq else ne, r, q);
  }

  type Cache = map<Attr, int>

  /** Every cached value is the value from scratch, and everything it was computed from is cached too. */
  ghost predicate Honest(s: System, c: Cache) {
    forall a :: a in c ==>
      && !a.Given()
      && c[a] == Value(s, a)
      && forall b :: b in Needs(s, a) ==> b.Given() || b in c
  }

  /** Reading through the cache. */
  ghost function Get(s: System, c: Cache, a: Attr): (r: (int, Cache))
    decreases s.rank(a), 1, Ret(0)
  {
    if a.Given() then (s.given(a), c)
    else if a in c then (c[a], c)
    else
      var (v, d) := Play(s, c, s.tree(a), s.rank(a));
      (v, d[a := v])
  }

  ghost function Play(s: System, c: Cache, t: Tree, r: nat): (w: (int, Cache))
    decreases r, 0, t
  {
    match t
    case Ret(v) => (v, c)
    case Case(a, on, eq, ne) =>
      if s.rank(a) >= r then (0, c)
      else
        var (v, d) := Get(s, c, a);
        Play(s, d, if v == on then eq else ne, r)
  }

  ghost predicate Extends(c: Cache, d: Cache) {
    forall a :: a in c ==> a in d && d[a] == c[a]
  }

  /** A lazy read returns the value from scratch and keeps the cache honest. */
  lemma {:induction false} GetHonest(s: System, c: Cache, a: Attr)
    requires Ranked(s) && Honest(s, c)
    ensures Get(s, c, a).0 == Value(s, a)
    ensures Honest(s, Get(s, c, a).1) && Extends(c, Get(s, c, a).1)
    ensures a.Given() || a in Get(s, c, a).1
    decreases s.rank(a), 1, Ret(0)
  {
    if !a.Given() && a !in c {
      assert Below(s, s.tree(a), s.rank(a));
      PlayHonest(s, c, s.tree(a), s.rank(a));
    }
  }

  lemma {:induction false} PlayHonest(s: System, c: Cache, t: Tree, r: nat)
    requires Ranked(s) && Honest(s, c) && Below(s, t, r)
    ensures Play(s, c, t, r).0 == Follow(s, t, r)
    ensures Honest(s, Play(s, c, t, r).1) && Extends(c, Play(s, c, t, r).1)
    ensures forall b :: b in Trail(s, t) ==> b.Given() || b in Play(s, c, t, r).1
    decreases r, 0, t
  {
    match t
    case Ret(_) =>
    case Case(a, on, eq, ne) =>
      GetHonest(s, c, a);
      var (v, d) := Get(s, c, a);
      PlayHonest(s, d, if v == on then eq else ne, r);
  }

  /** The cache without anything about the items in `gone`. */
  function Drop(c: Cache, gone: set<nat>): (d: Cache) {
    map a | a in c && a.item !in gone :: c[a]
  }

  /** Which items have to be looked at when an item changes. */
  datatype Edges = Edges(dependents: nat -> set<nat>, modules: nat, defined: set<nat>)

  /** Every read crosses an edge, stays within the item, or reads MODULES. */
  ghost predicate Covered(s: System, e: Edges) {
    && (forall a: Attr, b: Attr :: b in Reads(s.tree(a)) ==>
          b.item == a.item || b.item == e.modules || b.item !in e.defined || a.item in e.dependents(b.item))
    && (forall a: Attr {:trigger s.tree(a)} :: a.item !in e.defined ==> s.tree(a).Ret?)
    && (forall x :: e.dependents(x) <= e.defined)
  }

  /** The visibility is computed on the way to every other value, so it tells whether anything is cached. */
  ghost predicate Flagged(s: System) {
    forall a: Attr {:trigger s.tree(a)} :: a.kind != Vis && s.tree(a).Case? ==> Attr(a.item, Vis) in Needs(s, a)
  }

  /** Invalidation went far enough: no dependent of a dropped item is cached, and MODULES takes all with it. */
  ghost predicate Closed(e: Edges, d: Cache, gone: set<nat>) {
    && gone <= e.defined
    && (forall x, y :: x in gone && y in e.dependents(x) ==> Attr(y, Vis) !in d)
    && (e.modules in gone ==> e.defined <= gone)
  }

  /** What survives invalidation depends on nothing that was dropped. */
  lemma SurvivorsClear(s: System, e: Edges, c: Cache, gone: set<nat>, a: Attr, b: Attr)
    requires Ranked(s) && Covered(s, e) && Flagged(s) && Honest(s, c) && Closed(e, Drop(c, gone), gone)
    requires a in Drop(c, gone) && b in Needs(s, a)
    ensures b.item !in gone
  {
    assert b in Reads(s.tree(a));
    assert a.kind == Vis ==> a == Attr(a.item, Vis);
    assert Attr(a.item, Vis) in c;
  }

  /** The systems evaluate alike, and none of the evaluations in `d` looked at a given attribute that differs. */
  ghost predicate Unaffected(s: System, t: System, d: Cache) {
    && t.tree == s.tree
    && forall a, b :: a in d && b in Needs(s, a) ==> if b.Given() then t.given(b) == s.given(b) else b in d
  }

  lemma {:induction false} SameWalk(s: System, t: System, d: Cache, w: Tree, r: nat, q: nat)
    requires Ranked(s) && Ranked(t) && Below(s, w, r) && Below(t, w, q) && Unaffected(s, t, d)
    requires forall b :: b in Trail(s, w) ==> if b.Given() then t.given(b) == s.given(b) else b in d
    ensures Follow(t, w, q) == Follow(s, w, r) && Trail(t, w) == Trail(s, w)
    decreases r, 0, w
  {
    match w
    case Ret(_) =>
    case Case(a, on, eq, ne) =>
      if !a.Given() {
        SameValue(s, t, d, a);
      }
      SameWalk(s, t, d, if Value(s, a) == on then eq else ne, r, q);
  }

  lemma {:induction false} SameValue(s: System, t: System, d: Cache, a: Attr)
    requires Ranked(s) && Ranked(t) && Unaffected(s, t, d) && a in d && !a.Given()
    ensures Value(t, a) == Value(s, a) && Needs(t, a) == Needs(s, a)
    decreases s.rank(a), 1, Ret(0)
  {
    assert Below(t, t.tree(a), t.rank(a)) && Below(s, s.tree(a), s.rank(a));
    SameWalk(s, t, d, t.tree(a), s.rank(a), t.rank(a));
  }

  /** New given values leave an honest cache honest if no cached evaluation looked at what changed. */
  lemma UnaffectedHonest(s: System, t: System, d: Cache)
    requires Ranked(s) && Ranked(t) && Unaffected(s, t, d)
    requires forall a :: a in d ==> !a.Given() && d[a] == Value(s, a)
    ensures Honest(t, d)
  {
    forall a | a in d ensures d[a] == Value(t, a) && Needs(t, a) == Needs(s, a) {
      SameValue(s, t, d, a);
    }
  }

  /** An invalidation that went far enough leaves an honest cache, when what survived did not
      look at anything that was given anew to other items. */
  lemma AssignHonest(s: System, t: System, e: Edges, c: Cache, gone: set<nat>)
    requires Ranked(s) && Ranked(t) && t.tree == s.tree
    requires Covered(s, e) && Flagged(s) && Honest(s, c) && Closed(e, Drop(c, gone), gone)
    requires forall a, b :: a in Drop(c, gone) && b in Needs(s, a) && b.Given() && b.item !in gone ==>
                              t.given(b) == s.given(b)
    ensures Honest(t, Drop(c, gone))
  {
    var d := Drop(c, gone);
    forall a, b | a in d && b in Needs(s, a) ensures if b.Given() then t.given(b) == s.given(b) else b in d {
      SurvivorsClear(s, e, c, gone, a, b);
    }
    UnaffectedHonest(s, t, d);
  }
}
