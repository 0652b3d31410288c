/** Two configurations that tools/kconfiglib.py reads with a warning, and on which its cache goes stale. */
module KconfigStale {
  import opened KExpr
  import opened LazyCache
  import opened KconfigGraph
  import opened KconfigEdges
  import opened KconfigMeaning
  import opened KconfigValues
  import opened Options
  import opened Numbers

  const YES: nat := 10
  const NO: nat := 11

  /** A bool symbol with one prompt, which depends on `dep`. */
  function Plain(prompt: nat, dep: nat, choice: Option<nat>): Node {
    Symbol(false, [Item(prompt)], [], Item(NO), Item(NO), Item(dep), choice)
  }

  /** Choice 1 of symbol 2, whose default is symbol 5 outside of it; symbol 5 depends on symbol 6. */
  function Outside(): Graph {
    Graph(map[1 := Choice(false, false, [Item(YES)], [(5, Item(YES))], [2]), 2 := Plain(1, 1, Some(1)),
              5 := Plain(6, 6, None), 6 := Plain(YES, YES, None), YES := Constant(2), NO := Constant(0)], 0)
  }

  /** Choice 1 of symbols 2 and 3. Symbol 2 has no prompt in the choice, and one without a condition elsewhere. */
  function Detached(): Graph {
    Graph(map[1 := Choice(false, false, [Item(YES)], [], [2, 3]), 2 := Plain(YES, YES, Some(1)),
              3 := Plain(1, 1, Some(1)), YES := Constant(2), NO := Constant(0)], 0)
  }

  function Rank(a: Attr): nat {
    if a.Given() || a.item == YES || a.item == NO || a.item == 0 then 0
    else if a.item == 1 then (match a.kind case Vis => 1 case Sel => 5 case _ => 0)
    else if a.item == 6 then if a.kind == Vis then 1 else 2
    else if a.item == 5 then if a.kind == Vis then 3 else 4
    else if a.kind == Vis then 2 else 6
  }

  function Ranking(): Ranks {
    (u: Users) => (a: Attr) => Rank(a)
  }

  function Lower(r: nat): (ok: Attr -> bool) {
    (a: Attr) => Rank(a) < r
  }

  lemma {:induction false} WithinBelow(s: System, t: Tree, r: nat)
    requires (forall a {:trigger s.rank(a)} :: s.rank(a) == Rank(a)) && Within(t, Lower(r))
    ensures Below(s, t, r)
  {
    match t
    case Ret(_) =>
    case Case(a, on, eq, ne) =>
      WithinBelow(s, eq, r);
      WithinBelow(s, ne, r);
  }

  lemma PlainMentions(prompt: nat, dep: nat, choice: Option<nat>)
    ensures Mentions(Plain(prompt, dep, choice)) == {prompt, dep, NO}
  {
    assert ItemsOf([Item(prompt)]) == Items(Item(prompt)) + ItemsOf([]);
  }

  lemma ChoiceItems()
    ensures ItemsOf([Item(YES)]) == {YES} && ItemsOfPicks([(5, Item(YES))]) == {YES} && ItemsOfPicks([]) == {}
  {
    assert ItemsOf([Item(YES)]) == Items(Item(YES)) + ItemsOf([]);
    assert ItemsOfPicks([(5, Item(YES))]) == Items(Item(YES)) + ItemsOfPicks([]);
  }

  /** What a symbol mentions has a lower rank than the symbol, and so have the parts of its choice. */
  lemma SymbolLower(g: Graph, i: nat, kind: Kind, prompt: nat, dep: nat, choice: Option<nat>)
    requires i in g.nodes && g.nodes[i] == Plain(prompt, dep, choice)
    requires Admits(g, {prompt, dep, NO}, Lower(Rank(Attr(i, Vis)))) && 0 < Rank(Attr(i, Vis)) < Rank(Attr(i, Tri))
    requires choice.Some? ==> g.IsChoice(choice.value) && Admits(g, {choice.value}, Lower(Rank(Attr(i, Vis))))
    requires choice.Some? ==> Rank(Attr(choice.value, Sel)) < Rank(Attr(i, Tri))
    ensures Within(TreeOf(g, Attr(i, kind)), Lower(Rank(Attr(i, kind))))
  {
    hide SymbolVis, SymbolTri, Mentions;
    PlainMentions(prompt, dep, choice);
    if kind == Vis {
      SymbolVisWithin(g, g.nodes[i], Lower(Rank(Attr(i, Vis))));
    } else if kind == Tri {
      SymbolTriWithin(g, i, g.nodes[i], Lower(Rank(Attr(i, Tri))));
    }
  }

  lemma ChoiceLower(g: Graph, kind: Kind)
    requires 1 in g.nodes && g.nodes[1].Choice? && g.nodes[1].prompts == [Item(YES)] && !g.IsChoice(YES)
             && g.modules == 0
    requires g.nodes[1].picks == [] || g.nodes[1].picks == [(5, Item(YES))]
    requires forall x :: x in g.nodes[1].syms ==> x == 2 || x == 3
    ensures Within(TreeOf(g, Attr(1, kind)), Lower(Rank(Attr(1, kind))))
  {
    hide ChoiceVis, ChoiceSel, ItemsOf, ItemsOfPicks;
    ChoiceItems();
    if kind == Vis {
      ChoiceVisWithin(g, g.nodes[1], Lower(1));
    } else if kind == Sel {
      ChoiceSelWithin(g, 1, Lower(5));
    }
  }

  lemma OutsideLower(a: Attr)
    ensures Within(TreeOf(Outside(), a), Lower(Rank(a)))
  {
    hide SymbolVis, SymbolTri, ChoiceVis, ChoiceSel;
    var g := Outside();
    if a.item == 1 {
      ChoiceLower(g, a.kind);
    } else if a.item == 2 {
      SymbolLower(g, 2, a.kind, 1, 1, Some(1));
    } else if a.item == 5 {
      SymbolLower(g, 5, a.kind, 6, 6, None);
    } else if a.item == 6 {
      SymbolLower(g, 6, a.kind, YES, YES, None);
    }
  }

  lemma DetachedLower(a: Attr)
    ensures Within(TreeOf(Detached(), a), Lower(Rank(a)))
  {
    hide SymbolVis, SymbolTri, ChoiceVis, ChoiceSel;
    var g := Detached();
    if a.item == 1 {
      ChoiceLower(g, a.kind);
    } else if a.item == 2 {
      SymbolLower(g, 2, a.kind, YES, YES, Some(1));
    } else if a.item == 3 {
      SymbolLower(g, 3, a.kind, 1, 1, Some(1));
    }
  }

  lemma LowerLoopFree(g: Graph)
    requires forall a {:trigger TreeOf(g, a)} :: Within(TreeOf(g, a), Lower(Rank(a)))
    ensures LoopFree(g, Ranking())
  {
    hide TreeOf, Within, Below, Rank;
    forall u: Users | u.InRange() ensures Ranked(SystemOf(g, Ranking()(u), u)) {
      var s := SystemOf(g, Ranking()(u), u);
      forall a ensures Below(s, s.tree(a), s.rank(a)) {
        WithinBelow(s, TreeOf(g, a), Rank(a));
      }
    }
  }

  lemma BothLoopFree()
    ensures LoopFree(Outside(), Ranking()) && LoopFree(Detached(), Ranking())
  {
    hide TreeOf, Within, Below, Outside, Detached, LoopFree, Rank;
    forall a ensures Within(TreeOf(Outside(), a), Lower(Rank(a))) {
      OutsideLower(a);
    }
    forall a ensures Within(TreeOf(Detached(), a), Lower(Rank(a))) {
      DetachedLower(a);
    }
    LowerLoopFree(Outside());
    LowerLoopFree(Detached());
  }

  lemma OutsideWellFormed()
    ensures WellFormed(Outside())
  {
  }

  lemma DetachedWellFormed()
    ensures WellFormed(Detached())
  {
  }

  lemma ConstantTri(s: System, g: Graph, i: nat)
    requires Evaluates(s, g) && WellFormed(g) && i in g.nodes && g.nodes[i].Constant?
    ensures Value(s, Attr(i, Tri)) == g.nodes[i].v
  {
    hide Value;
    ValueMeaning(s, g, Attr(i, Tri));
  }

  lemma PlainVis(s: System, g: Graph, i: nat, prompt: nat, dep: nat, choice: Option<nat>)
    requires Evaluates(s, g) && WellFormed(g) && i in g.nodes && g.nodes[i] == Plain(prompt, dep, choice)
    requires choice.Some? ==> g.IsChoice(choice.value) && !g.nodes[choice.value].tristate
    ensures Value(s, Attr(i, Vis)) == if ItemOf(g, Values(s), prompt) == 0 then 0 else 2
  {
    hide Value, ItemOf;
    ValueMeaning(s, g, Attr(i, Vis));
    var d, val := g.nodes[i], Values(s);
    assert BestPrompt(g, val, d.prompts) == Max(ValueOf(g, val, Item(prompt)), BestPrompt(g, val, []));
    ValuesRange(s, g);
    EvalMeaning(g, val, Item(prompt), Ret(0), Ret(1), Ret(2));
  }

  /** A visible symbol that nothing selects has its user value, or n. */
  lemma PlainTri(s: System, g: Graph, i: nat, prompt: nat, dep: nat)
    requires Evaluates(s, g) && WellFormed(g) && i in g.nodes && g.nodes[i] == Plain(prompt, dep, None)
    requires NO in g.nodes && g.nodes[NO] == Constant(0)
    requires Value(s, Attr(i, Vis)) == 2 && s.given(Attr(i, User)) in {NONE, 2}
    ensures Value(s, Attr(i, Tri)) == if s.given(Attr(i, User)) == 2 then 2 else 0
  {
    assert Value(s, Attr(i, User)) == s.given(Attr(i, User));
    ConstantTri(s, g, NO);
    hide Value;
    ValueMeaning(s, g, Attr(i, Tri));
    var d, val := g.nodes[i], Values(s);
    assert ValueOf(g, val, d.revDep) == 0 == ValueOf(g, val, d.weakRevDep);
  }

  /** A choice that is shown and not optional is in y mode. */
  lemma ChoiceOn(s: System, g: Graph)
    requires Evaluates(s, g) && WellFormed(g) && s.given(Attr(1, User)) == NONE
    requires YES in g.nodes && g.nodes[YES] == Constant(2)
    requires 1 in g.nodes && g.nodes[1].Choice? && !g.nodes[1].tristate && !g.nodes[1].optional
    requires g.nodes[1].prompts == [Item(YES)]
    ensures ItemOf(g, Values(s), 1) == ModeOf(g, Values(s), 1) == 2
  {
    assert Value(s, Attr(1, User)) == s.given(Attr(1, User));
    ConstantTri(s, g, YES);
    hide Value;
    ValueMeaning(s, g, Attr(1, Vis));
    var d, val := g.nodes[1], Values(s);
    assert BestPrompt(g, val, d.prompts) == Max(ValueOf(g, val, Item(YES)), BestPrompt(g, val, []));
  }

  lemma OutsideVis(s: System)
    requires Evaluates(s, Outside()) && s.given(Attr(1, User)) == NONE && s.given(Attr(6, User)) in {NONE, 2}
    ensures Value(s, Attr(YES, Tri)) == 2 && Value(s, Attr(2, Vis)) == 2 && ModeOf(Outside(), Values(s), 1) == 2
    ensures Value(s, Attr(5, Vis)) == if s.given(Attr(6, User)) == 2 then 2 else 0
  {
    hide Follow, Needs, WellFormed, Below, Value, ModeOf;
    var g := Outside();
    OutsideWellFormed();
    ConstantTri(s, g, YES);
    ChoiceOn(s, g);
    PlainVis(s, g, 6, YES, YES, None);
    PlainTri(s, g, 6, YES, YES);
    PlainVis(s, g, 5, 6, 6, None);
    PlainVis(s, g, 2, 1, 1, Some(1));
  }

  lemma OutsidePick(g: Graph, val: Valuation)
    requires g == Outside() && val(Attr(YES, Tri)) == 2 && val(Attr(2, Vis)) == 2
    ensures DefaultPick(g, val, g.nodes[1], g.nodes[1].picks) == if val(Attr(5, Vis)) != 0 then 5 else 2
  {
    assert ValueOf(g, val, Item(YES)) == 2;
    assert FirstVisibleOf(val, [2]) == 2;
    assert DefaultPick(g, val, g.nodes[1], []) == 2;
  }

  /** What symbol 5 outside shows decides what the choice selects. */
  lemma OutsideSel(s: System)
    requires Evaluates(s, Outside()) && s.given(Attr(1, User)) == NONE && s.given(Attr(1, UserSel)) == NONE
    requires s.given(Attr(6, User)) in {NONE, 2}
    ensures Value(s, Attr(1, Sel)) == if s.given(Attr(6, User)) == 2 then 5 else 2
  {
    hide Follow, Needs, WellFormed, Below, ModeOf, DefaultPick, Evaluates;
    OutsideWellFormed();
    OutsideVis(s);
    OutsidePick(Outside(), Values(s));
    assert Value(s, Attr(1, UserSel)) == NONE;
    hide Value;
    ValueMeaning(s, Outside(), Attr(1, Sel));
  }

  lemma OutsideUpward()
    ensures Upward(Outside(), {5, 6})
  {
    PlainMentions(1, 1, Some(1));
    PlainMentions(6, 6, None);
    PlainMentions(YES, YES, None);
    ChoiceItems();
    hide Mentions, ItemsOf, ItemsOfPicks;
  }

  lemma OutsideSpared(c: Cache, d: Cache)
    requires Spared(Outside(), 6, c, d) && Attr(1, Sel) in c
    ensures Attr(1, Sel) in d && d[Attr(1, Sel)] == c[Attr(1, Sel)]
  {
    hide Upward;
    OutsideUpward();
  }

  lemma OutsideAccepts()
    ensures !Outside().IsChoice(6) && Accepts(Outside(), 6, 2) && !Grouped(Outside(), 6)
  {
  }

  lemma OutsideEdge()
    ensures HasEdge(Outside(), 2, 1)
  {
    PlainMentions(1, 1, Some(1));
    hide Mentions;
    assert 1 in Mentions(Outside().nodes[2]);
  }

  lemma OutsideGroups()
    ensures GroupsLinked(Outside())
  {
    OutsideEdge();
    hide HasEdge;
  }

  lemma OutsidePicks()
    ensures !PicksLinked(Outside())
  {
    ChoiceItems();
    assert Mentions(Outside().nodes[1]) == {YES, 2};
    hide Mentions;
    assert !HasEdge(Outside(), 1, Outside().nodes[1].picks[0].0);
  }

  /** Symbol 6 is set, symbol 5 becomes visible, and the choice keeps its old selection. */
  method StaleSelection() returns (k: Kconfig)
    ensures fresh(k) && k.Valid() && GroupsLinked(k.g) && !PicksLinked(k.g)
    ensures Attr(1, Sel) in k.cache && k.cache[Attr(1, Sel)] == 2 && Value(k.Sys(), Attr(1, Sel)) == 5
  {
    hide Outside, LoopFree, Value, WellFormed, Spared, Accepts, Grouped, GroupsLinked, PicksLinked, Get, Evaluates;
    hide Flagged, Covered, Extends, Ranked;
    OutsideWellFormed();
    BothLoopFree();
    OutsideAccepts();
    OutsideGroups();
    OutsidePicks();
    k := new Kconfig(Outside(), Ranking());
    k.Facts();
    OutsideSel(k.Sys());
    var before := k.Read(Attr(1, Sel));
    ghost var c := k.cache;
    assert c[Attr(1, Sel)] == 2;
    hide Honest;
    var ok := k.SetValue(6, 2);
    OutsideSpared(c, k.cache);
    k.Facts();
    OutsideSel(k.Sys());
  }

  lemma DetachedVis(s: System)
    requires Evaluates(s, Detached()) && s.given(Attr(1, User)) == NONE
    ensures Value(s, Attr(2, Vis)) == 2 && Value(s, Attr(3, Vis)) == 2 && ModeOf(Detached(), Values(s), 1) == 2
  {
    hide Follow, Needs, WellFormed, Below, Value, ModeOf;
    var g := Detached();
    DetachedWellFormed();
    ConstantTri(s, g, YES);
    ChoiceOn(s, g);
    PlainVis(s, g, 2, YES, YES, Some(1));
    PlainVis(s, g, 3, 1, 1, Some(1));
  }

  lemma DetachedSel(s: System)
    requires Evaluates(s, Detached()) && s.given(Attr(1, User)) == NONE && s.given(Attr(1, UserSel)) in {NONE, 3}
    ensures Value(s, Attr(1, Sel)) == if s.given(Attr(1, UserSel)) == 3 then 3 else 2
  {
    hide Follow, Needs, WellFormed, Below, ModeOf, Evaluates;
    DetachedWellFormed();
    DetachedVis(s);
    assert Value(s, Attr(1, UserSel)) == s.given(Attr(1, UserSel));
    hide Value;
    ValueMeaning(s, Detached(), Attr(1, Sel));
  }

  /** From scratch exactly the selected symbol of the choice is y. */
  lemma DetachedTri(s: System)
    requires Evaluates(s, Detached()) && s.given(Attr(1, User)) == NONE && s.given(Attr(1, UserSel)) in {NONE, 3}
    ensures Value(s, Attr(2, Tri)) == if s.given(Attr(1, UserSel)) == 3 then 0 else 2
    ensures Value(s, Attr(3, Tri)) == if s.given(Attr(1, UserSel)) == 3 then 2 else 0
  {
    hide Follow, Needs, WellFormed, Below, ModeOf, Evaluates, Value;
    DetachedWellFormed();
    DetachedVis(s);
    DetachedSel(s);
    ValueMeaning(s, Detached(), Attr(2, Tri));
    ValueMeaning(s, Detached(), Attr(3, Tri));
  }

  lemma DetachedUpward()
    ensures Upward(Detached(), {1, 3})
  {
    PlainMentions(1, 1, Some(1));
    PlainMentions(YES, YES, Some(1));
    hide Mentions;
  }

  lemma DetachedSpared(c: Cache, d: Cache)
    requires Spared(Detached(), 1, c, d) && Attr(2, Tri) in c
    ensures Attr(2, Tri) in d && d[Attr(2, Tri)] == c[Attr(2, Tri)]
  {
    hide Upward;
    DetachedUpward();
  }

  lemma DetachedAccepts()
    ensures !Detached().IsChoice(3) && Accepts(Detached(), 3, 2)
    ensures Grouped(Detached(), 3) && Detached().nodes[3].choice.value == 1
  {
  }

  lemma DetachedEdge()
    ensures !HasEdge(Detached(), 2, 1)
  {
    PlainMentions(YES, YES, Some(1));
    hide Mentions;
    assert 1 !in Mentions(Detached().nodes[2]);
  }

  lemma DetachedGroups()
    ensures !GroupsLinked(Detached())
  {
    DetachedEdge();
    hide HasEdge;
    assert Detached().nodes[2].Symbol? && Detached().nodes[2].choice == Some(1);
  }

  lemma DetachedPicks()
    ensures PicksLinked(Detached())
  {
    hide HasEdge;
  }

  /** The user selects symbol 3 of a choice, and its symbol 2 keeps the value y. */
  method StaleValue() returns (k: Kconfig)
    ensures fresh(k) && k.Valid() && !GroupsLinked(k.g) && PicksLinked(k.g)
    ensures Attr(2, Tri) in k.cache && k.cache[Attr(2, Tri)] == 2
    ensures Value(k.Sys(), Attr(2, Tri)) == 0 && Value(k.Sys(), Attr(3, Tri)) == 2
  {
    hide Detached, LoopFree, Value, WellFormed, Spared, Accepts, Grouped, GroupsLinked, PicksLinked, Get, Evaluates;
    hide Flagged, Covered, Extends, Ranked;
    DetachedWellFormed();
    BothLoopFree();
    DetachedAccepts();
    DetachedGroups();
    DetachedPicks();
    k := new Kconfig(Detached(), Ranking());
    k.Facts();
    DetachedTri(k.Sys());
    var before := k.Read(Attr(2, Tri));
    ghost var c := k.cache;
    assert c[Attr(2, Tri)] == 2;
    hide Honest;
    var ok := k.SetValue(3, 2);
    DetachedSpared(c, k.cache);
    k.Facts();
    DetachedTri(k.Sys());
  }
}

/** A configuration in which MODULES depends on a tristate symbol. Its evaluations could read each other,
    and never do. */
module KconfigModules {
  import opened KExpr
  import opened LazyCache
  import opened KconfigGraph
  import opened KconfigEdges
  import opened KconfigValues
  import opened Options
  import opened Numbers

  const YES: nat := 10
  const NO: nat := 11

  /** A symbol without a prompt that is y if `cond` is. */
  function Derived(tristate: bool, cond: nat): Node {
    Symbol(tristate, [], [(Item(YES), Item(cond))], Item(NO), Item(NO), Item(YES), None)
  }

  /** MODULES is item 0, the tristate symbol item 1. */
  function Entangled(): Graph {
    Graph(map[0 := Derived(false, 1), 1 := Derived(true, YES), YES := Constant(2), NO := Constant(0)], 0)
  }

  function Ranking(): Ranks {
    (u: Users) => (a: Attr) => if a.kind != Tri then 0 else if a.item == 0 then 3 else if a.item == 1 then 2 else 1
  }

  lemma AskBelow(s: System, a: Attr, n: Tree, m: Tree, y: Tree, r: nat)
    requires s.rank(a) < r && 0 <= Value(s, a) <= 2 && Below(s, Pick(Value(s, a), n, m, y), r)
    ensures Below(s, Ask(a, n, m, y), r)
    ensures Follow(s, Ask(a, n, m, y), r) == Follow(s, Pick(Value(s, a), n, m, y), r)
  {
  }

  ghost predicate Entangles(s: System, u: Users) {
    s == SystemOf(Entangled(), Ranking()(u), u)
  }

  lemma Leaves(s: System, u: Users)
    requires Entangles(s, u)
    ensures Value(s, Attr(YES, Tri)) == 2 && Value(s, Attr(NO, Tri)) == 0
    ensures Value(s, Attr(0, Vis)) == 0 && Value(s, Attr(1, Vis)) == 0
  {
  }

  lemma Twos(s: System, r: nat)
    ensures Below(s, Ret(2), r) && Follow(s, Ret(2), r) == 2
  {
  }

  lemma ImpliedBelow(s: System, u: Users, tristate: bool, cond: nat, r: nat)
    requires Entangles(s, u) && r >= 2
    ensures var t := Implied(Entangled(), Derived(tristate, cond), 2); Below(s, t, r) && Follow(s, t, r) == 2
  {
    hide Follow, Below, Value;
    var g, d, no := Entangled(), Derived(tristate, cond), Attr(NO, Tri);
    Leaves(s, u);
    Twos(s, r);
    var raised := (w: int) => var t := Promoted(g, d, Max(w, 2)); Eval(g, d.directDep, t, t, t);
    AskBelow(s, no, Promoted(g, d, 2), raised(1), raised(2), r);
    var implied := (w: int) => var t := Selected(g, d, Max(w, 2)); Eval(g, d.directDep, Selected(g, d, 2), t, t);
    AskBelow(s, no, Selected(g, d, 2), implied(1), implied(2), r);
  }

  /** A symbol that is y by default reads its condition and constants, and not MODULES. */
  lemma DerivedBelow(s: System, u: Users, i: nat, tristate: bool, cond: nat, r: nat)
    requires Entangles(s, u) && i in {0, 1} && r >= 2 && cond in {1, YES}
    requires s.rank(Attr(cond, Tri)) < r && Value(s, Attr(cond, Tri)) == 2
    ensures var t := SymbolTri(Entangled(), i, Derived(tristate, cond)); Below(s, t, r) && Follow(s, t, r) == 2
  {
    hide Follow, Below, Value, Implied, UserValue;
    var g, d := Entangled(), Derived(tristate, cond);
    Leaves(s, u);
    ImpliedBelow(s, u, tristate, cond, r);
    var i0, i1, i2 := Implied(g, d, 0), Implied(g, d, 1), Implied(g, d, 2);
    AskBelow(s, Attr(YES, Tri), i0, i1, i2, r);
    AskBelow(s, Attr(cond, Tri), Defaults(g, d, []), Eval(g, Item(YES), i0, i1, i1), Eval(g, Item(YES), i0, i1, i2), r);
    assert d.defaults[1..] == [];
    AskBelow(s, Attr(i, Vis), Defaults(g, d, d.defaults), UserValue(g, i, d, 1), UserValue(g, i, d, 2), r);
  }

  lemma Entwined(s: System, u: Users)
    requires Entangles(s, u)
    ensures Below(s, s.tree(Attr(1, Tri)), 2) && Below(s, s.tree(Attr(0, Tri)), 3)
  {
    hide Below, Follow, SymbolTri;
    Leaves(s, u);
    DerivedBelow(s, u, 1, true, YES, 2);
    assert Value(s, Attr(1, Tri)) == 2;
    DerivedBelow(s, u, 0, false, 1, 3);
  }

  lemma OthersLeaves(a: Attr)
    requires a != Attr(0, Tri) && a != Attr(1, Tri)
    ensures TreeOf(Entangled(), a).Ret?
  {
  }

  lemma EntangledRanked(s: System, u: Users)
    requires Entangles(s, u)
    ensures Ranked(s)
  {
    hide TreeOf, Entangled;
    Entwined(s, u);
    forall a ensures Below(s, s.tree(a), s.rank(a)) {
      if a != Attr(0, Tri) && a != Attr(1, Tri) {
        OthersLeaves(a);
      }
    }
  }

  /** Nothing the user gives makes the evaluations come back to themselves. */
  lemma EntangledLoopFree()
    ensures LoopFree(Entangled(), Ranking())
  {
    hide Entangled, Ranked;
    forall u: Users | u.InRange() ensures Ranked(SystemOf(Entangled(), Ranking()(u), u)) {
      EntangledRanked(SystemOf(Entangled(), Ranking()(u), u), u);
    }
  }
}
