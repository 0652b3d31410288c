/** The cache of tools/kconfiglib.py in use: lazy reads, assignments and early-stopping invalidation. */
module KconfigValues {
  import opened KExpr
  import opened LazyCache
  import opened KconfigGraph
  import opened KconfigEdges
  import opened KconfigMeaning

  function Trees(g: Graph): (t: Attr -> Tree) {
    (a: Attr) => TreeOf(g, a)
  }

  /** User values and user selections; what is not in the maps is None. */
  datatype Users = Users(value: map<nat, int>, selection: map<nat, nat>) {
    ghost predicate InRange() {
      forall i :: i in value ==> 0 <= value[i] <= 2
    }

    function Given(a: Attr): (v: int) {
      if a.kind == User && a.item in value then value[a.item]
      else if a.kind == UserSel && a.item in selection then selection[a.item]
      else NONE
    }
  }

  function SystemOf(g: Graph, rank: Attr -> nat, u: Users): (s: System) {
    System(Trees(g), rank, (a: Attr) => u.Given(a))
  }

  /** Ranks for whatever the user gives: the graph evaluates without loops. */
  type Ranks = Users -> Attr -> nat

  ghost predicate LoopFree(g: Graph, rank: Ranks) {
    forall u: Users :: u.InRange() ==> Ranked(SystemOf(g, rank(u), u))
  }

  /** A user value of a symbol is read by the value of that symbol alone. */
  lemma UserReader(g: Graph, s: System, a: Attr, i: nat)
    requires Evaluates(s, g) && WellFormed(g) && !g.IsChoice(i) && Attr(i, User) in Needs(s, a)
    ensures a == Attr(i, Tri) && i in g.nodes && g.nodes[i].Symbol?
  {
    hide Trail, Within, WellFormed, Scope;
    assert s.tree(a) == TreeOf(g, a);
    if a.item in g.nodes {
      TreeWithin(g, a);
      WithinReads(TreeOf(g, a), InScope(g, a.item), Attr(i, User));
      if a.kind == Vis && g.nodes[a.item].Symbol? {
        VisReadsNoUser(g, a.item, Attr(i, User));
      }
    }
  }

  /** User values are read of choices only. */
  ghost function NoUser(g: Graph): (ok: Attr -> bool) {
    (a: Attr) => a.Given() ==> g.IsChoice(a.item)
  }

  lemma VisReadsNoUser(g: Graph, i: nat, b: Attr)
    requires WellFormed(g) && i in g.nodes && g.nodes[i].Symbol?
    requires b in Reads(SymbolVis(g, g.nodes[i]))
    ensures b.Given() ==> g.IsChoice(b.item)
  {
    hide SymbolVis;
    SymbolVisWithin(g, g.nodes[i], NoUser(g));
    WithinReads(SymbolVis(g, g.nodes[i]), NoUser(g), b);
  }

  /** Without a prompt the visibility is n. */
  lemma PromptlessHidden(g: Graph, s: System, i: nat)
    requires Evaluates(s, g) && WellFormed(g) && i in g.nodes && g.nodes[i].Symbol? && g.nodes[i].prompts == []
    ensures Value(s, Attr(i, Vis)) == 0
  {
    hide Follow, Needs, Trail, TreeOf;
    ValueMeaning(s, g, Attr(i, Vis));
  }

  /** User values have no effect on symbols without a prompt: they are not even looked at. */
  lemma PromptlessUnread(g: Graph, s: System, a: Attr, i: nat)
    requires Evaluates(s, g) && WellFormed(g) && !g.IsChoice(i)
    requires i in g.nodes && g.nodes[i].Symbol? ==> g.nodes[i].prompts == []
    ensures Attr(i, User) !in Needs(s, a)
  {
    if Attr(i, User) in Needs(s, a) {
      UserReader(g, s, a, i);
      PromptlessHidden(g, s, i);
      HiddenTrail(g, s, i);
      assert false;
    }
  }

  lemma HiddenTrail(g: Graph, s: System, i: nat)
    requires Evaluates(s, g) && WellFormed(g) && i in g.nodes && g.nodes[i].Symbol?
    requires Value(s, Attr(i, Vis)) == 0
    ensures Attr(i, User) !in Needs(s, Attr(i, Tri))
  {
    hide Defaults, UserValue, Within, Value;
    var a, d := Attr(i, Tri), g.nodes[i];
    assert s.tree(a) == TreeOf(g, a) == SymbolTri(g, i, d);
    if d.choice.None? {
      var rest := Defaults(g, d, d.defaults);
      DefaultsWithin(g, d, d.defaults, NoUser(g));
      if Attr(i, User) in Trail(s, rest) {
        WithinReads(rest, NoUser(g), Attr(i, User));
      }
    }
  }

  /** `value in (0, 2)` for bool items, `value in (0, 1, 2)` for tristate ones. */
  predicate Accepts(g: Graph, i: nat, v: int) {
    i in g.nodes && (v == 0 || v == 2 || (v == 1 && (g.nodes[i].Constant? || g.nodes[i].tristate)))
  }

  predicate Grouped(g: Graph, i: nat) {
    i in g.nodes && g.nodes[i].Symbol? && g.nodes[i].choice.Some?
  }

  predicate HasPrompt(g: Graph, i: nat) {
    i in g.nodes && g.nodes[i].Symbol? && g.nodes[i].prompts != []
  }

  /** Items with a cached visibility: the measure of invalidation. */
  function Shown(c: Cache): (s: set<nat>) {
    set a | a in c && a.kind == Vis :: a.item
  }

  lemma DropTwice(c: Cache, x: set<nat>, y: set<nat>)
    ensures Drop(Drop(c, x), y) == Drop(c, x + y)
    ensures Shown(Drop(c, x)) <= Shown(c)
    ensures forall i :: i in x && Attr(i, Vis) in c ==> i in Shown(c) && i !in Shown(Drop(c, x))
  {
    forall i | i in x && Attr(i, Vis) in c ensures i in Shown(c) && i !in Shown(Drop(c, x)) {
      assert Attr(i, Vis).item == i;
    }
  }

  lemma DropShrinks(c: Cache, x: set<nat>)
    ensures forall a :: a in Drop(c, x) ==> a in c && a.item !in x
  {
  }

  /** Invalidation from `i` has dropped `gone` and still has to look at the dependents in `todo`. */
  ghost predicate Underway(g: Graph, i: nat, c: Cache, d: Cache, gone: set<nat>, todo: set<nat>) {
    && d == Drop(c, gone) && i in gone && gone <= g.Defined()
    && todo <= Dependents(g, i)
    && (forall y :: y in Dependents(g, i) && y !in todo ==> Attr(y, Vis) !in d)
    && (forall x, y :: x in gone && x != i && y in Dependents(g, x) ==> Attr(y, Vis) !in d)
    && (g.modules in gone ==> g.Defined() <= gone)
  }

  lemma UnderwayStart(g: Graph, i: nat, c: Cache)
    requires i in g.Defined() && i != g.modules
    ensures Underway(g, i, c, Drop(c, {i}), {i}, Dependents(g, i))
    ensures Shown(Drop(c, {i})) <= Shown(c) && (Attr(i, Vis) in c ==> Shown(Drop(c, {i})) < Shown(c))
  {
    DropTwice(c, {i}, {});
  }

  lemma UnderwayMerge(g: Graph, i: nat, c: Cache, d: Cache, gone: set<nat>, todo: set<nat>, y: nat, more: set<nat>)
    requires Underway(g, i, c, d, gone, todo) && y in todo && y in more
    requires Closed(EdgesOf(g), Drop(d, more), more)
    ensures Underway(g, i, c, Drop(d, more), gone + more, todo - {y})
    ensures Shown(Drop(d, more)) <= Shown(d)
  {
    hide Dependents, Shown, Drop, g.Defined;
    DropTwice(c, gone, more);
    DropTwice(d, more, {});
    DropShrinks(d, more);
    forall x, z | x in more && z in Dependents(g, x) ensures Attr(z, Vis) !in Drop(d, more) {
      assert z in EdgesOf(g).dependents(x);
    }
  }

  lemma UnderwayScope(g: Graph, i: nat, c: Cache, d: Cache, gone: set<nat>, todo: set<nat>)
    requires Underway(g, i, c, d, gone, todo)
    ensures todo <= g.Defined()
  {
  }

  lemma UnderwaySkip(g: Graph, i: nat, c: Cache, d: Cache, gone: set<nat>, todo: set<nat>, y: nat)
    requires Underway(g, i, c, d, gone, todo) && Attr(y, Vis) !in d
    ensures Underway(g, i, c, d, gone, todo - {y})
  {
  }

  lemma UnderwayDone(g: Graph, i: nat, c: Cache, d: Cache, gone: set<nat>)
    requires Underway(g, i, c, d, gone, {})
    ensures d == Drop(c, gone) && i in gone && Closed(EdgesOf(g), d, gone)
  {
  }

  /** Whatever depends on an item in `w` is in `w`, and everything is if MODULES is. */
  ghost predicate Upward(g: Graph, w: set<nat>) {
    && (forall x :: x in w ==> Dependents(g, x) <= w)
    && (g.modules in w ==> g.Defined() <= w)
  }

  /** Nothing was dropped but what depends on `i`. */
  ghost predicate Minimal(g: Graph, i: nat, gone: set<nat>) {
    forall w :: Upward(g, w) && i in w ==> gone <= w
  }

  lemma MinimalMerge(g: Graph, i: nat, gone: set<nat>, y: nat, more: set<nat>)
    requires Minimal(g, i, gone) && y in Dependents(g, i) && Minimal(g, y, more)
    ensures Minimal(g, i, gone + more)
  {
  }

  /** What does not depend on `i` stays cached. */
  ghost predicate Spared(g: Graph, i: nat, c: Cache, d: Cache) {
    forall w, a :: Upward(g, w) && i in w && a in c && a.item !in w ==> a in d && d[a] == c[a]
  }

  lemma MinimalSpares(g: Graph, i: nat, c: Cache, gone: set<nat>)
    requires Minimal(g, i, gone)
    ensures Spared(g, i, c, Drop(c, gone))
  {
  }

  lemma AllGone(g: Graph, c: Cache)
    ensures Closed(EdgesOf(g), Drop(c, g.Defined()), g.Defined())
  {
  }

  /** Nothing cached has looked at the user value of `i`. */
  ghost predicate Settled(g: Graph, i: nat, d: Cache, gone: set<nat>) {
    i in gone || (!g.IsChoice(i) && (!HasPrompt(g, i) || Attr(i, Vis) !in d))
  }

  lemma UserUnread(g: Graph, s: System, c: Cache, gone: set<nat>, i: nat, a: Attr)
    requires Evaluates(s, g) && WellFormed(g) && Flagged(s) && Honest(s, c)
    requires Settled(g, i, Drop(c, gone), gone) && i !in gone && a in Drop(c, gone)
    ensures Attr(i, User) !in Needs(s, a)
  {
    hide Needs, TreeOf, WellFormed;
    if Attr(i, User) in Needs(s, a) {
      UserReader(g, s, a, i);
      if !HasPrompt(g, i) {
        PromptlessUnread(g, s, a, i);
      }
    }
  }

  /** An assignment to one item, followed by enough invalidation, leaves the cache honest. */
  lemma AssignedHonest(g: Graph, s: System, t: System, c: Cache, gone: set<nat>, i: nat)
    requires WellFormed(g) && Evaluates(s, g) && Ranked(t) && t.tree == s.tree
    requires Covered(s, EdgesOf(g)) && Flagged(s) && Honest(s, c)
    requires Closed(EdgesOf(g), Drop(c, gone), gone) && Settled(g, i, Drop(c, gone), gone)
    requires forall b: Attr :: b.Given() && b.item !in gone && b != Attr(i, User) ==> t.given(b) == s.given(b)
    ensures Honest(t, Drop(c, gone))
  {
    hide Needs, TreeOf, WellFormed, Drop, Closed, Covered, Flagged, Settled, Honest, Ranked, EdgesOf;
    forall a, b | a in Drop(c, gone) && b in Needs(s, a) && b.Given() && b.item !in gone
      ensures t.given(b) == s.given(b)
    {
      if b == Attr(i, User) {
        UserUnread(g, s, c, gone, i, a);
      }
    }
    AssignHonest(s, t, EdgesOf(g), c, gone);
  }

  lemma GroupDropped(g: Graph, i: nat, d: Cache, gone: set<nat>)
    requires WellFormed(g) && GroupsLinked(g) && Grouped(g, i) && g.nodes[i].choice.value in gone
    requires Closed(EdgesOf(g), d, gone)
    ensures Settled(g, i, d, gone)
  {
    var c := g.nodes[i].choice.value;
    assert HasEdge(g, i, c);
    assert i in EdgesOf(g).dependents(c);
  }

  lemma ChoiceDefined(g: Graph, i: nat)
    requires WellFormed(g) && Grouped(g, i)
    ensures g.nodes[i].choice.value in g.Defined()
  {
  }

  lemma DropExtends(c: Cache, gone: set<nat>)
    ensures Extends(Drop(c, gone), c)
  {
  }

  lemma NothingGone(g: Graph, i: nat, c: Cache)
    ensures Drop(c, {}) == c && Closed(EdgesOf(g), c, {}) && Minimal(g, i, {}) && Spared(g, i, c, c)
  {
  }

  class Kconfig {
    const g: Graph
    ghost const rank: Ranks
    var user: map<nat, int>
    var selected: map<nat, nat>
    var cache: Cache

    function UserOf(i: nat): (v: int)
      reads this`user
    {
      if i in user then user[i] else NONE
    }

    function Given(a: Attr): (v: int)
      reads this`user, this`selected
    {
      Users(user, selected).Given(a)
    }

    ghost function Sys(): (s: System)
      reads this`user, this`selected
    {
      var u := Users(user, selected);
      SystemOf(g, rank(u), u)
    }

    /** The configuration evaluates without loops. */
    ghost predicate Valid()
      reads this
    {
      && WellFormed(g)
      && LoopFree(g, rank)
      && Users(user, selected).InRange()
    }

    /** The cache holds values from scratch only. */
    ghost predicate Right()
      reads this
    {
      Honest(Sys(), cache)
    }

    /** Every read has its edge. */
    ghost predicate Linked() {
      GroupsLinked(g) && PicksLinked(g)
    }

    lemma Facts()
      requires Valid()
      ensures Ranked(Sys()) && Evaluates(Sys(), g) && Flagged(Sys())
      ensures Covered(Sys(), EdgesOf(g)) <==> Linked()
    {
      hide WellFormed, TreeOf, EdgesOf, Covered, GroupsLinked, PicksLinked;
      var u := Users(user, selected);
      assert u.InRange();
      assert Ranked(SystemOf(g, rank(u), u));
      EdgesCoverIff(g, Sys());
      TreesFlagged(g, Sys());
    }

    /** What an evaluation sees of the user is what is in the fields, and -1 is "none". */
    lemma SeenFields(i: nat)
      ensures Value(Sys(), Attr(i, User)) == if i in user then user[i] else -1
      ensures Value(Sys(), Attr(i, UserSel)) == if i in selected then selected[i] else -1
    {
    }

    constructor (g: Graph, ghost rank: Ranks)
      requires WellFormed(g) && LoopFree(g, rank)
      ensures Valid() && Right()
      ensures this.g == g && this.rank == rank && user == map[] && selected == map[] && cache == map[]
    {
      this.g, this.rank, user, selected, cache := g, rank, map[], map[], map[];
    }

    /** A property read: `visibility`, `tri_value`, `selection`. */
    method Read(a: Attr) returns (v: int)
      requires Valid() && Right() && !a.Given()
      modifies this`cache
      ensures Valid() && Right()
      ensures v == Value(Sys(), a)
      ensures cache == Get(Sys(), old(cache), a).1 && a in cache
      decreases Sys().rank(a)
    {
      hide TreeOf, WellFormed, Trail, LoopFree;
      ghost var s, c0 := Sys(), cache;
      Facts();
      GetHonest(s, cache, a);
      if a in cache {
        return cache[a];
      }
      var t := TreeOf(g, a);
      assert t == s.tree(a);
      assert Below(s, t, s.rank(a));
      hide Value;
      while t.Case?
        invariant Sys() == s && user == old(user) && selected == old(selected)
        invariant Valid() && Right() && Below(s, t, s.rank(a))
        invariant Play(s, cache, t, s.rank(a)) == Play(s, c0, s.tree(a), s.rank(a))
        decreases t
      {
        var w := Given(t.a);
        ghost var c1 := cache;
        GetHonest(s, c1, t.a);
        if !t.a.Given() {
          w := Read(t.a);
        }
        t := if w == t.on then t.eq else t.ne;
      }
      v := t.v;
      cache := cache[a := v];
    }

    /** `_rec_invalidate`: drops an item and, as far as they have something cached, its dependents. */
    method RecInvalidate(i: nat) returns (ghost gone: set<nat>)
      requires i in g.Defined()
      modifies this`cache
      ensures cache == Drop(old(cache), gone) && i in gone
      ensures Closed(EdgesOf(g), cache, gone) && Minimal(g, i, gone)
      decreases Shown(cache), if Attr(i, Vis) in cache then 0 else 1
    {
      hide Underway, Closed, Drop, Shown, EdgesOf;
      if i == g.modules {
        cache := Drop(cache, g.Defined());
        AllGone(g, old(cache));
        return g.Defined();
      }
      UnderwayStart(g, i, cache);
      cache := Drop(cache, {i});
      gone := {i};
      assert Minimal(g, i, gone);
      hide Minimal;
      ghost var c1 := cache;
      var todo := Dependents(g, i);
      while todo != {}
        invariant Underway(g, i, old(cache), cache, gone, todo)
        invariant Shown(cache) <= Shown(c1) && todo <= Dependents(g, i) && Minimal(g, i, gone)
      {
        var y :| y in todo;
        if Attr(y, Vis) in cache {
          ghost var c2 := cache;
          UnderwayScope(g, i, old(cache), cache, gone, todo);
          ghost var more := RecInvalidate(y);
          UnderwayMerge(g, i, old(cache), c2, gone, todo, y, more);
          MinimalMerge(g, i, gone, y, more);
          gone := gone + more;
        } else {
          UnderwaySkip(g, i, old(cache), cache, gone, todo, y);
        }
        todo := todo - {y};
      }
      UnderwayDone(g, i, old(cache), cache, gone);
    }

    /** `_rec_invalidate_if_has_prompt`. */
    method InvalidateIfHasPrompt(i: nat) returns (ghost gone: set<nat>)
      requires !g.IsChoice(i)
      modifies this`cache
      ensures cache == Drop(old(cache), gone) && Closed(EdgesOf(g), cache, gone)
      ensures Settled(g, i, cache, gone) && Minimal(g, i, gone)
    {
      gone := {};
      NothingGone(g, i, cache);
      if HasPrompt(g, i) {
        gone := RecInvalidate(i);
      }
    }

    /** The item whose dependents `set_value` invalidates. */
    function Target(i: nat, v: int): (t: nat) {
      if Grouped(g, i) && v == 2 then g.nodes[i].choice.value else i
    }

    /** `Symbol.set_value`, with NONE for None. */
    method SetValue(i: nat, v: int) returns (ok: bool)
      requires Valid() && !g.IsChoice(i)
      modifies this`user, this`selected, this`cache
      ensures Valid() && (Linked() && old(Right()) ==> Right())
      ensures ok <==> Accepts(g, i, v) || (v == old(UserOf(i)) && !Grouped(g, i))
      ensures user == if Accepts(g, i, v) then old(user)[i := v] else old(user)
      ensures selected == if Accepts(g, i, v) && v == 2 && Grouped(g, i)
                          then old(selected)[g.nodes[i].choice.value := i] else old(selected)
      ensures Accepts(g, i, v) ==> Value(Sys(), Attr(i, User)) == v
      ensures Accepts(g, i, v) && v == 2 && Grouped(g, i) ==>
                Value(Sys(), Attr(g.nodes[i].choice.value, UserSel)) == i
      ensures Extends(cache, old(cache)) && Spared(g, Target(i, v), old(cache), cache)
    {
      hide Honest, WellFormed, Drop, Closed, Settled, TreeOf, Covered, Flagged, EdgesOf, LoopFree;
      hide GroupsLinked, PicksLinked, Evaluates, Minimal, Spared, Ranked;
      NothingGone(g, Target(i, v), cache);
      if v == UserOf(i) && !Grouped(g, i) {
        SeenFields(i);
        return true;
      }
      if !Accepts(g, i, v) {
        return false;
      }
      ghost var s, gone := Sys(), {};
      Facts();
      user := user[i := v];
      if Grouped(g, i) && v == 2 {
        var c := g.nodes[i].choice.value;
        ChoiceDefined(g, i);
        selected := selected[c := i];
        gone := RecInvalidate(c);
        if Linked() {
          GroupDropped(g, i, cache, gone);
        }
      } else {
        gone := InvalidateIfHasPrompt(i);
      }
      MinimalSpares(g, Target(i, v), old(cache), gone);
      Facts();
      if Linked() && old(Right()) {
        AssignedHonest(g, s, Sys(), old(cache), gone, i);
      }
      DropExtends(old(cache), gone);
      ok := true;
    }

    /** `Symbol.unset_value`. */
    method UnsetValue(i: nat)
      requires Valid() && !g.IsChoice(i)
      modifies this`user, this`cache
      ensures Valid() && (Linked() && old(Right()) ==> Right())
      ensures user == old(user) - {i}
      ensures Extends(cache, old(cache)) && Spared(g, i, old(cache), cache)
    {
      hide Honest, WellFormed, Drop, Closed, Settled, TreeOf, Covered, Flagged, EdgesOf, LoopFree;
      hide GroupsLinked, PicksLinked, Evaluates, Minimal, Spared, Ranked;
      NothingGone(g, i, cache);
      if i in user {
        ghost var s := Sys();
        Facts();
        user := user - {i};
        ghost var gone := InvalidateIfHasPrompt(i);
        MinimalSpares(g, i, old(cache), gone);
        Facts();
        if Linked() && old(Right()) {
          AssignedHonest(g, s, Sys(), old(cache), gone, i);
        }
        DropExtends(old(cache), gone);
      }
    }

    /** `Choice.set_value`: the mode of a choice. */
    method SetMode(c: nat, v: int) returns (ok: bool)
      requires Valid() && g.IsChoice(c)
      modifies this`user, this`cache
      ensures Valid() && (Linked() && old(Right()) ==> Right())
      ensures ok <==> Accepts(g, c, v) || v == old(UserOf(c))
      ensures user == if Accepts(g, c, v) then old(user)[c := v] else old(user)
      ensures Extends(cache, old(cache)) && Spared(g, c, old(cache), cache)
    {
      hide Honest, WellFormed, Drop, Closed, TreeOf, Covered, Flagged, EdgesOf, LoopFree;
      hide GroupsLinked, PicksLinked, Evaluates, Minimal, Spared, Ranked;
      NothingGone(g, c, cache);
      if v == UserOf(c) {
        return true;
      }
      if !Accepts(g, c, v) {
        return false;
      }
      ghost var s := Sys();
      Facts();
      user := user[c := v];
      ghost var gone := RecInvalidate(c);
      MinimalSpares(g, c, old(cache), gone);
      Facts();
      if Linked() && old(Right()) {
        AssignedHonest(g, s, Sys(), old(cache), gone, c);
      }
      DropExtends(old(cache), gone);
      ok := true;
    }

    /** `Choice.unset_value`: resets the mode and the selection. */
    method UnsetMode(c: nat)
      requires Valid() && g.IsChoice(c)
      modifies this`user, this`selected, this`cache
      ensures Valid() && (Linked() && old(Right()) ==> Right())
      ensures user == old(user) - {c} && selected == old(selected) - {c}
      ensures Extends(cache, old(cache)) && Spared(g, c, old(cache), cache)
    {
      hide Honest, WellFormed, Drop, Closed, TreeOf, Covered, Flagged, EdgesOf, LoopFree;
      hide GroupsLinked, PicksLinked, Evaluates, Minimal, Spared, Ranked;
      NothingGone(g, c, cache);
      if c in user || c in selected {
        ghost var s := Sys();
        Facts();
        user, selected := user - {c}, selected - {c};
        ghost var gone := RecInvalidate(c);
        MinimalSpares(g, c, old(cache), gone);
        Facts();
        if Linked() && old(Right()) {
          AssignedHonest(g, s, Sys(), old(cache), gone, c);
        }
        DropExtends(old(cache), gone);
      }
    }
  }
}
