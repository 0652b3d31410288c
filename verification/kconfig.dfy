/** How tools/kconfiglib.py evaluates bool and tristate symbols and choices, and which edges
    `_build_dep` puts between them. */
module KconfigGraph {
  import opened KExpr
  import opened LazyCache
  import opened Options
  import opened Numbers

  datatype Node =
    | Symbol(tristate: bool, prompts: seq<Expr>, defaults: seq<(Expr, Expr)>,
             revDep: Expr, weakRevDep: Expr, directDep: Expr, choice: Option<nat>)
    | Choice(tristate: bool, optional: bool, prompts: seq<Expr>, picks: seq<(nat, Expr)>, syms: seq<nat>)
    | Constant(v: int)

  /** Items that are not listed are undefined symbols, whose tristate value is n. */
  datatype Graph = Graph(nodes: map<nat, Node>, modules: nat) {
    predicate IsChoice(i: nat) {
      i in nodes && nodes[i].Choice?
    }

    function Defined(): set<nat> {
      set i | i in nodes && !nodes[i].Constant?
    }
  }

  /** Encodes "no user value" and "no selection". */
  const NONE: int := -1

  function Ask(a: Attr, n: Tree, m: Tree, y: Tree): Tree {
    Case(a, 0, n, Case(a, 1, m, y))
  }

  function Pick(v: int, n: Tree, m: Tree, y: Tree): Tree {
    if v == 0 then n else if v == 1 then m else y
  }

  /** `Choice.tri_value`, which is not cached. */
  function Mode(g: Graph, c: nat, n: Tree, m: Tree, y: Tree): Tree
    requires g.IsChoice(c)
  {
    var user := Attr(c, User);
    Case(user, 2, Limit(g, c, 2, n, m, y),
         if g.nodes[c].optional then Case(user, 1, Limit(g, c, 1, n, m, y), Limit(g, c, 0, n, m, y))
         else Limit(g, c, 1, n, m, y))
  }

  /** The mode of a choice that wants to be `v`, as its visibility allows. */
  function Limit(g: Graph, c: nat, v: int, n: Tree, m: Tree, y: Tree): Tree
    requires g.IsChoice(c)
  {
    var promoted := if g.nodes[c].tristate then Case(Attr(g.modules, Tri), 0, y, m) else y;
    Ask(Attr(c, Vis), n, Pick(Min(v, 1), n, promoted, y), Pick(v, n, promoted, y))
  }

  /** `expr_value` with its short-circuits, continued by `n`, `m` or `y`. */
  function Eval(g: Graph, e: Expr, n: Tree, m: Tree, y: Tree): Tree {
    match e
    case Item(i) => if g.IsChoice(i) then Mode(g, i, n, m, y) else Ask(Attr(i, Tri), n, m, y)
    case And(l, r) => Eval(g, l, n, Eval(g, r, n, m, m), Eval(g, r, n, m, y))
    case Or(l, r) => Eval(g, l, Eval(g, r, n, m, y), Eval(g, r, m, m, y), y)
    case Not(x) => Eval(g, x, y, m, n)
    case Relation(op, a, b) => Ask(Attr(a, Tri), Compare(op, 0, b, n, y), Compare(op, 1, b, n, y),
                                   Compare(op, 2, b, n, y))
  }

  function Compare(op: Rel, x: int, b: nat, n: Tree, y: Tree): Tree {
    Ask(Attr(b, Tri), if Holds(op, x, 0) then y else n, if Holds(op, x, 1) then y else n,
        if Holds(op, x, 2) then y else n)
  }

  /** The loop over the prompt conditions in `_visibility`. */
  function Prompts(g: Graph, ps: seq<Expr>, best: int, n: Tree, m: Tree, y: Tree): Tree {
    if ps == [] then Pick(best, n, m, y)
    else Eval(g, ps[0], Prompts(g, ps[1..], best, n, m, y), Prompts(g, ps[1..], Max(best, 1), n, m, y),
              Prompts(g, ps[1..], 2, n, m, y))
  }

  /** `Symbol.type is BOOL`. */
  function IfBool(g: Graph, s: Node, yes: Tree, no: Tree): Tree
    requires s.Symbol?
  {
    var byModules := Case(Attr(g.modules, Tri), 0, yes, no);
    if !s.tristate then yes
    else if s.choice.Some? && g.IsChoice(s.choice.value) then Mode(g, s.choice.value, byModules, byModules, yes)
    else byModules
  }

  /** `_visibility` of a symbol. */
  function SymbolVis(g: Graph, s: Node): Tree
    requires s.Symbol?
  {
    Prompts(g, s.prompts, 0, InChoice(g, s, 0), InChoice(g, s, 1), InChoice(g, s, 2))
  }

  function InChoice(g: Graph, s: Node, v: int): Tree
    requires s.Symbol?
  {
    var promoted := if v == 1 then IfBool(g, s, Ret(2), Ret(1)) else Ret(v);
    if s.choice.None? || !g.IsChoice(s.choice.value) then promoted
    else
      var c := s.choice.value;
      if g.nodes[c].tristate && !s.tristate then Mode(g, c, Ret(0), Ret(0), promoted)
      else if s.tristate && v == 1 then Mode(g, c, promoted, promoted, Ret(0))
      else promoted
  }

  /** `_visibility` of a choice. */
  function ChoiceVis(g: Graph, ch: Node): Tree
    requires ch.Choice?
  {
    Prompts(g, ch.prompts, 0, Ret(0),
            if ch.tristate then Case(Attr(g.modules, Tri), 0, Ret(2), Ret(1)) else Ret(2), Ret(2))
  }

  /** `Symbol.tri_value`. */
  function SymbolTri(g: Graph, i: nat, s: Node): Tree
    requires s.Symbol?
  {
    var user := Attr(i, User);
    if s.choice.Some? then
      Ask(Attr(i, Vis), Ret(0), Case(user, 1, Ret(1), Case(user, 2, Ret(1), Ret(0))),
          Case(Attr(s.choice.value, Sel), i, Ret(2), Ret(0)))
    else
      Ask(Attr(i, Vis), Defaults(g, s, s.defaults), UserValue(g, i, s, 1), UserValue(g, i, s, 2))
  }

  /** A visible symbol takes its user value, if there is one, up to the visibility. */
  function UserValue(g: Graph, i: nat, s: Node, vis: int): Tree
    requires s.Symbol?
  {
    var user := Attr(i, User);
    Case(user, 0, Selected(g, s, 0), Case(user, 1, Selected(g, s, 1),
      Case(user, 2, Selected(g, s, vis), Defaults(g, s, s.defaults))))
  }

  /** The first default whose condition is not n. */
  function Defaults(g: Graph, s: Node, ds: seq<(Expr, Expr)>): Tree
    requires s.Symbol?
  {
    if ds == [] then Implied(g, s, 0)
    else Eval(g, ds[0].1, Defaults(g, s, ds[1..]),
              Eval(g, ds[0].0, Implied(g, s, 0), Implied(g, s, 1), Implied(g, s, 1)),
              Eval(g, ds[0].0, Implied(g, s, 0), Implied(g, s, 1), Implied(g, s, 2)))
  }

  /** Weak reverse dependencies count if the direct dependencies are met. */
  function Implied(g: Graph, s: Node, v: int): Tree
    requires s.Symbol?
  {
    var raised := (w: int) => Eval(g, s.directDep, Selected(g, s, v), Selected(g, s, Max(w, v)),
                                   Selected(g, s, Max(w, v)));
    Eval(g, s.weakRevDep, Selected(g, s, v), raised(1), raised(2))
  }

  /** Reverse dependencies take precedence; the direct dependencies are read for a warning only. */
  function Selected(g: Graph, s: Node, v: int): Tree
    requires s.Symbol?
  {
    var raised := (w: int) => var t := Promoted(g, s, Max(w, v)); Eval(g, s.directDep, t, t, t);
    Eval(g, s.revDep, Promoted(g, s, v), raised(1), raised(2))
  }

  /** m is promoted to y for bool symbols and for symbols implied to y. */
  function Promoted(g: Graph, s: Node, v: int): Tree
    requires s.Symbol?
  {
    if v == 1 then IfBool(g, s, Ret(2), Eval(g, s.weakRevDep, Ret(1), Ret(1), Ret(2))) else Ret(v)
  }

  /** `Choice._selection`. */
  function ChoiceSel(g: Graph, c: nat, ch: Node): Tree
    requires ch.Choice? && g.IsChoice(c)
  {
    Mode(g, c, Ret(NONE), Ret(NONE), UserSelected(g, c, ch, ch.syms))
  }

  function UserSelected(g: Graph, c: nat, ch: Node, ss: seq<nat>): Tree
    requires ch.Choice?
  {
    var rest := DefaultSelected(g, ch, ch.picks);
    if ss == [] then rest
    else Case(Attr(c, UserSel), ss[0], Case(Attr(ss[0], Vis), 0, rest, Ret(ss[0])), UserSelected(g, c, ch, ss[1..]))
  }

  function DefaultSelected(g: Graph, ch: Node, ds: seq<(nat, Expr)>): Tree
    requires ch.Choice?
  {
    if ds == [] then FirstVisible(ch.syms)
    else
      var rest := DefaultSelected(g, ch, ds[1..]);
      var taken := Case(Attr(ds[0].0, Vis), 0, rest, Ret(ds[0].0));
      Eval(g, ds[0].1, rest, taken, taken)
  }

  function FirstVisible(ss: seq<nat>): Tree {
    if ss == [] then Ret(NONE) else Case(Attr(ss[0], Vis), 0, FirstVisible(ss[1..]), Ret(ss[0]))
  }

  /** The evaluation of every attribute. */
  function TreeOf(g: Graph, a: Attr): Tree {
    if a.item !in g.nodes then Ret(0)
    else
      match (g.nodes[a.item], a.kind)
      case (Symbol(_, _, _, _, _, _, _), Vis) => SymbolVis(g, g.nodes[a.item])
      case (Symbol(_, _, _, _, _, _, _), Tri) => SymbolTri(g, a.item, g.nodes[a.item])
      case (Choice(_, _, _, _, _), Vis) => ChoiceVis(g, g.nodes[a.item])
      case (Choice(_, _, _, _, _), Sel) => ChoiceSel(g, a.item, g.nodes[a.item])
      case (Constant(v), Tri) => Ret(v)
      case (_, _) => Ret(0)
  }
}

/** Where `_build_dep` and `_add_choice_deps` put edges, and when that is everywhere an evaluation may read. */
module KconfigEdges {
  import opened KExpr
  import opened LazyCache
  import opened KconfigGraph
  import opened Numbers

  function ItemsOf(es: seq<Expr>): (s: set<nat>) {
    if es == [] then {} else Items(es[0]) + ItemsOf(es[1..])
  }

  function ItemsOfDefaults(ds: seq<(Expr, Expr)>): (s: set<nat>) {
    if ds == [] then {} else Items(ds[0].0) + Items(ds[0].1) + ItemsOfDefaults(ds[1..])
  }

  function ItemsOfPicks(ds: seq<(nat, Expr)>): (s: set<nat>) {
    if ds == [] then {} else Items(ds[0].1) + ItemsOfPicks(ds[1..])
  }

  /** What an item depends on. */
  function Mentions(d: Node): (s: set<nat>) {
    match d
    case Symbol(_, ps, ds, rev, weak, direct, _) =>
      ItemsOf(ps) + ItemsOfDefaults(ds) + Items(rev) + Items(weak) + Items(direct)
    case Choice(_, _, ps, picks, syms) => ItemsOf(ps) + ItemsOfPicks(picks) + set x | x in syms
    case Constant(_) => {}
  }

  function Dependents(g: Graph, j: nat): (s: set<nat>)
    ensures s <= g.Defined()
  {
    if j !in g.Defined() then {} else set i | i in g.nodes && !g.nodes[i].Constant? && j in Mentions(g.nodes[i])
  }

  /** What parsing guarantees of a graph. */
  ghost predicate WellFormed(g: Graph) {
    && (forall i :: i in g.nodes && g.nodes[i].Symbol? && g.nodes[i].choice.Some? ==>
          g.IsChoice(g.nodes[i].choice.value) && i in g.nodes[g.nodes[i].choice.value].syms)
    && !g.IsChoice(g.modules)
    && (forall i :: i in g.nodes && g.nodes[i].Constant? ==> 0 <= g.nodes[i].v <= 2)
  }

  /** A change of `j` reaches `i`. */
  predicate HasEdge(g: Graph, i: nat, j: nat) {
    j == i || j == g.modules || j !in g.Defined() || i in Dependents(g, j)
  }

  /** The choice of every symbol has its edge: it does not, if the properties of the symbol do not mention it. */
  ghost predicate GroupsLinked(g: Graph) {
    forall i :: i in g.nodes && g.nodes[i].Symbol? && g.nodes[i].choice.Some? ==> HasEdge(g, i, g.nodes[i].choice.value)
  }

  /** Every default of a choice has its edge: it may not, if it lies outside the choice. */
  ghost predicate PicksLinked(g: Graph) {
    forall i, k :: g.IsChoice(i) && 0 <= k < |g.nodes[i].picks| ==> HasEdge(g, i, g.nodes[i].picks[k].0)
  }

  /** The evaluation reads only what `ok` admits. */
  ghost predicate Within(t: Tree, ok: Attr -> bool) {
    match t
    case Ret(_) => true
    case Case(a, _, eq, ne) => ok(a) && Within(eq, ok) && Within(ne, ok)
  }

  lemma {:induction false} WithinReads(t: Tree, ok: Attr -> bool, b: Attr)
    requires Within(t, ok) && b in Reads(t)
    ensures ok(b)
  {
    if b == t.a {
    } else {
      WithinReads(if b in Reads(t.eq) then t.eq else t.ne, ok, b);
    }
  }

  ghost predicate Within3(n: Tree, m: Tree, y: Tree, ok: Attr -> bool) {
    Within(n, ok) && Within(m, ok) && Within(y, ok)
  }

  /** What evaluating an expression over the items in `s` reads is admitted. */
  ghost predicate Admits(g: Graph, s: set<nat>, ok: Attr -> bool) {
    && ok(Attr(g.modules, Tri))
    && forall i :: i in s ==> ok(Attr(i, Tri)) && (g.IsChoice(i) ==> ok(Attr(i, Vis)) && ok(Attr(i, User)))
  }

  lemma AskWithin(a: Attr, n: Tree, m: Tree, y: Tree, ok: Attr -> bool)
    requires Within3(n, m, y, ok) && ok(a)
    ensures Within(Ask(a, n, m, y), ok)
  {
  }

  lemma ModeWithin(g: Graph, c: nat, n: Tree, m: Tree, y: Tree, ok: Attr -> bool)
    requires g.IsChoice(c) && Admits(g, {c}, ok) && Within3(n, m, y, ok)
    ensures Within(Mode(g, c, n, m, y), ok)
  {
    LimitWithin(g, c, 0, n, m, y, ok);
    LimitWithin(g, c, 1, n, m, y, ok);
    LimitWithin(g, c, 2, n, m, y, ok);
  }

  lemma LimitWithin(g: Graph, c: nat, v: int, n: Tree, m: Tree, y: Tree, ok: Attr -> bool)
    requires g.IsChoice(c) && Admits(g, {c}, ok) && Within3(n, m, y, ok)
    ensures Within(Limit(g, c, v, n, m, y), ok)
  {
  }

  lemma {:induction false} EvalWithin(g: Graph, e: Expr, n: Tree, m: Tree, y: Tree, ok: Attr -> bool)
    requires Admits(g, Items(e), ok) && Within3(n, m, y, ok)
    ensures Within(Eval(g, e, n, m, y), ok)
  {
    match e
    case Item(i) =>
      if g.IsChoice(i) {
        ModeWithin(g, i, n, m, y, ok);
      }
    case And(l, r) =>
      EvalWithin(g, r, n, m, m, ok);
      EvalWithin(g, r, n, m, y, ok);
      EvalWithin(g, l, n, Eval(g, r, n, m, m), Eval(g, r, n, m, y), ok);
    case Or(l, r) =>
      EvalWithin(g, r, n, m, y, ok);
      EvalWithin(g, r, m, m, y, ok);
      EvalWithin(g, l, Eval(g, r, n, m, y), Eval(g, r, m, m, y), y, ok);
    case Not(x) => EvalWithin(g, x, y, m, n, ok);
    case Relation(op, a, b) =>
      assert forall x :: Within(Compare(op, x, b, n, y), ok);
  }

  lemma {:induction false} PromptsWithin(g: Graph, ps: seq<Expr>, best: int, n: Tree, m: Tree, y: Tree,
                                         ok: Attr -> bool)
    requires Admits(g, ItemsOf(ps), ok) && Within3(n, m, y, ok)
    ensures Within(Prompts(g, ps, best, n, m, y), ok)
  {
    if ps == [] {
    } else {
      PromptsWithin(g, ps[1..], best, n, m, y, ok);
      PromptsWithin(g, ps[1..], Max(best, 1), n, m, y, ok);
      PromptsWithin(g, ps[1..], 2, n, m, y, ok);
      EvalWithin(g, ps[0], Prompts(g, ps[1..], best, n, m, y), Prompts(g, ps[1..], Max(best, 1), n, m, y),
                 Prompts(g, ps[1..], 2, n, m, y), ok);
    }
  }

  /** What evaluating the properties of a symbol reads is admitted. */
  ghost predicate Fit(g: Graph, d: Node, ok: Attr -> bool) {
    && d.Symbol?
    && Admits(g, Mentions(d), ok)
    && (d.choice.Some? ==> g.IsChoice(d.choice.value) && Admits(g, {d.choice.value}, ok))
  }

  lemma IfBoolWithin(g: Graph, d: Node, yes: Tree, no: Tree, ok: Attr -> bool)
    requires Fit(g, d, ok) && Within(yes, ok) && Within(no, ok)
    ensures Within(IfBool(g, d, yes, no), ok)
  {
    var byModules := Case(Attr(g.modules, Tri), 0, yes, no);
    if d.choice.Some? {
      ModeWithin(g, d.choice.value, byModules, byModules, yes, ok);
    }
  }

  lemma InChoiceWithin(g: Graph, d: Node, v: int, ok: Attr -> bool)
    requires Fit(g, d, ok)
    ensures Within(InChoice(g, d, v), ok)
  {
    IfBoolWithin(g, d, Ret(2), Ret(1), ok);
    var promoted := if v == 1 then IfBool(g, d, Ret(2), Ret(1)) else Ret(v);
    if d.choice.Some? {
      ModeWithin(g, d.choice.value, Ret(0), Ret(0), promoted, ok);
      ModeWithin(g, d.choice.value, promoted, promoted, Ret(0), ok);
    }
  }

  lemma SymbolVisWithin(g: Graph, d: Node, ok: Attr -> bool)
    requires Fit(g, d, ok)
    ensures Within(SymbolVis(g, d), ok)
  {
    InChoiceWithin(g, d, 0, ok);
    InChoiceWithin(g, d, 1, ok);
    InChoiceWithin(g, d, 2, ok);
    PromptsWithin(g, d.prompts, 0, InChoice(g, d, 0), InChoice(g, d, 1), InChoice(g, d, 2), ok);
  }

  lemma PromotedWithin(g: Graph, d: Node, v: int, ok: Attr -> bool)
    requires Fit(g, d, ok)
    ensures Within(Promoted(g, d, v), ok)
  {
    EvalWithin(g, d.weakRevDep, Ret(1), Ret(1), Ret(2), ok);
    IfBoolWithin(g, d, Ret(2), Eval(g, d.weakRevDep, Ret(1), Ret(1), Ret(2)), ok);
  }

  lemma SelectedWithin(g: Graph, d: Node, v: int, ok: Attr -> bool)
    requires Fit(g, d, ok)
    ensures Within(Selected(g, d, v), ok)
  {
    forall w ensures Within(Promoted(g, d, w), ok) {
      PromotedWithin(g, d, w, ok);
    }
    var p, q := Promoted(g, d, Max(1, v)), Promoted(g, d, Max(2, v));
    EvalWithin(g, d.directDep, p, p, p, ok);
    EvalWithin(g, d.directDep, q, q, q, ok);
    EvalWithin(g, d.revDep, Promoted(g, d, v), Eval(g, d.directDep, p, p, p), Eval(g, d.directDep, q, q, q), ok);
  }

  lemma ImpliedWithin(g: Graph, d: Node, v: int, ok: Attr -> bool)
    requires Fit(g, d, ok)
    ensures Within(Implied(g, d, v), ok)
  {
    forall w ensures Within(Selected(g, d, w), ok) {
      SelectedWithin(g, d, w, ok);
    }
    var o, p, q := Selected(g, d, v), Selected(g, d, Max(1, v)), Selected(g, d, Max(2, v));
    EvalWithin(g, d.directDep, o, p, p, ok);
    EvalWithin(g, d.directDep, o, q, q, ok);
    EvalWithin(g, d.weakRevDep, o, Eval(g, d.directDep, o, p, p), Eval(g, d.directDep, o, q, q), ok);
  }

  lemma {:induction false} DefaultsWithin(g: Graph, d: Node, ds: seq<(Expr, Expr)>, ok: Attr -> bool)
    requires Fit(g, d, ok) && Admits(g, ItemsOfDefaults(ds), ok)
    ensures Within(Defaults(g, d, ds), ok)
  {
    var i0, i1, i2 := Implied(g, d, 0), Implied(g, d, 1), Implied(g, d, 2);
    ImpliedWithin(g, d, 0, ok);
    ImpliedWithin(g, d, 1, ok);
    ImpliedWithin(g, d, 2, ok);
    if ds == [] {
    } else {
      DefaultsWithin(g, d, ds[1..], ok);
      EvalWithin(g, ds[0].0, i0, i1, i1, ok);
      EvalWithin(g, ds[0].0, i0, i1, i2, ok);
      EvalWithin(g, ds[0].1, Defaults(g, d, ds[1..]), Eval(g, ds[0].0, i0, i1, i1), Eval(g, ds[0].0, i0, i1, i2), ok);
    }
  }

  lemma UserValueWithin(g: Graph, i: nat, d: Node, vis: int, ok: Attr -> bool)
    requires Fit(g, d, ok) && ok(Attr(i, User))
    ensures Within(UserValue(g, i, d, vis), ok)
  {
    DefaultsWithin(g, d, d.defaults, ok);
    SelectedWithin(g, d, 0, ok);
    SelectedWithin(g, d, 1, ok);
    SelectedWithin(g, d, vis, ok);
    assert Within(Case(Attr(i, User), 2, Selected(g, d, vis), Defaults(g, d, d.defaults)), ok);
  }

  lemma SymbolTriWithin(g: Graph, i: nat, d: Node, ok: Attr -> bool)
    requires Fit(g, d, ok) && ok(Attr(i, Vis)) && ok(Attr(i, User))
    requires d.choice.Some? ==> ok(Attr(d.choice.value, Sel))
    ensures Within(SymbolTri(g, i, d), ok)
  {
    var user, none := Attr(i, User), Ret(0);
    assert Within(none, ok) && Within(Ret(1), ok) && Within(Ret(2), ok);
    if d.choice.Some? {
      var u := Case(user, 1, Ret(1), Case(user, 2, Ret(1), none));
      assert Within(Case(user, 2, Ret(1), none), ok);
      AskWithin(Attr(i, Vis), none, u, Case(Attr(d.choice.value, Sel), i, Ret(2), none), ok);
    } else {
      DefaultsWithin(g, d, d.defaults, ok);
      UserValueWithin(g, i, d, 1, ok);
      UserValueWithin(g, i, d, 2, ok);
      AskWithin(Attr(i, Vis), Defaults(g, d, d.defaults), UserValue(g, i, d, 1), UserValue(g, i, d, 2), ok);
    }
  }

  lemma {:induction false} FirstVisibleWithin(ss: seq<nat>, ok: Attr -> bool)
    requires forall x :: x in ss ==> ok(Attr(x, Vis))
    ensures Within(FirstVisible(ss), ok)
  {
    if ss == [] {
    } else {
      FirstVisibleWithin(ss[1..], ok);
    }
  }

  lemma {:induction false} DefaultSelectedWithin(g: Graph, d: Node, ds: seq<(nat, Expr)>, ok: Attr -> bool)
    requires d.Choice? && Admits(g, ItemsOfPicks(ds), ok)
    requires forall x :: x in d.syms ==> ok(Attr(x, Vis))
    requires forall k :: 0 <= k < |ds| ==> ok(Attr(ds[k].0, Vis))
    ensures Within(DefaultSelected(g, d, ds), ok)
  {
    if ds == [] {
      FirstVisibleWithin(d.syms, ok);
    } else {
      DefaultSelectedWithin(g, d, ds[1..], ok);
      var rest := DefaultSelected(g, d, ds[1..]);
      var taken := Case(Attr(ds[0].0, Vis), 0, rest, Ret(ds[0].0));
      EvalWithin(g, ds[0].1, rest, taken, taken, ok);
    }
  }

  lemma {:induction false} UserSelectedWithin(g: Graph, c: nat, d: Node, ss: seq<nat>, ok: Attr -> bool)
    requires d.Choice? && ok(Attr(c, UserSel)) && (forall x :: x in ss ==> ok(Attr(x, Vis)))
    requires Within(DefaultSelected(g, d, d.picks), ok)
    ensures Within(UserSelected(g, c, d, ss), ok)
  {
    if ss == [] {
    } else {
      UserSelectedWithin(g, c, d, ss[1..], ok);
    }
  }

  lemma ChoiceVisWithin(g: Graph, d: Node, ok: Attr -> bool)
    requires d.Choice? && Admits(g, ItemsOf(d.prompts), ok)
    ensures Within(ChoiceVis(g, d), ok)
  {
    var m := if d.tristate then Case(Attr(g.modules, Tri), 0, Ret(2), Ret(1)) else Ret(2);
    PromptsWithin(g, d.prompts, 0, Ret(0), m, Ret(2), ok);
  }

  lemma ChoiceSelWithin(g: Graph, c: nat, ok: Attr -> bool)
    requires g.IsChoice(c) && Admits(g, {c}, ok) && ok(Attr(c, UserSel))
    requires Admits(g, ItemsOfPicks(g.nodes[c].picks), ok)
    requires forall x :: x in g.nodes[c].syms ==> ok(Attr(x, Vis))
    requires forall k :: 0 <= k < |g.nodes[c].picks| ==> ok(Attr(g.nodes[c].picks[k].0, Vis))
    ensures Within(ChoiceSel(g, c, g.nodes[c]), ok)
  {
    var d := g.nodes[c];
    DefaultSelectedWithin(g, d, d.picks, ok);
    UserSelectedWithin(g, c, d, d.syms, ok);
    ModeWithin(g, c, Ret(NONE), Ret(NONE), UserSelected(g, c, d, d.syms), ok);
  }

  function Picked(ds: seq<(nat, Expr)>): (s: set<nat>) {
    set k | 0 <= k < |ds| :: ds[k].0
  }

  /** Everything an item's evaluations may read. */
  function Scope(g: Graph, i: nat): (s: set<nat>)
    requires i in g.nodes
  {
    var d := g.nodes[i];
    Mentions(d) + {i, g.modules}
    + (if d.Symbol? && d.choice.Some? then {d.choice.value} else {})
    + (if d.Choice? then Picked(d.picks) else {})
  }

  /** Attributes of items in the scope, and user values only of choices and of the item itself. */
  ghost function InScope(g: Graph, i: nat): (ok: Attr -> bool)
    requires i in g.nodes
  {
    var s := Scope(g, i);
    (a: Attr) => a.item in s && (a.Given() ==> a.item == i || g.IsChoice(a.item))
  }

  lemma FitsScope(g: Graph, i: nat)
    requires WellFormed(g) && i in g.nodes && g.nodes[i].Symbol?
    ensures Fit(g, g.nodes[i], InScope(g, i))
  {
  }

  lemma TreeWithin(g: Graph, a: Attr)
    requires WellFormed(g) && a.item in g.nodes
    ensures Within(TreeOf(g, a), InScope(g, a.item))
  {
    var i, d, ok := a.item, g.nodes[a.item], InScope(g, a.item);
    match (d, a.kind)
    case (Symbol(_, _, _, _, _, _, _), Vis) => FitsScope(g, i); SymbolVisWithin(g, d, ok);
    case (Symbol(_, _, _, _, _, _, _), Tri) => FitsScope(g, i); SymbolTriWithin(g, i, d, ok);
    case (Choice(_, _, _, _, _), Vis) => ChoiceVisWithin(g, d, ok);
    case (Choice(_, _, _, picks, _), Sel) =>
      forall k | 0 <= k < |picks| ensures ok(Attr(picks[k].0, Vis)) {
        assert picks[k].0 in Picked(picks);
      }
      ChoiceSelWithin(g, i, ok);
    case (_, _) =>
  }

  function EdgesOf(g: Graph): Edges {
    Edges(j => Dependents(g, j), g.modules, g.Defined())
  }

  lemma ScopeLinked(g: Graph, i: nat, j: nat)
    requires GroupsLinked(g) && PicksLinked(g) && i in g.nodes && !g.nodes[i].Constant? && j in Scope(g, i)
    ensures HasEdge(g, i, j)
  {
    var d := g.nodes[i];
    if d.Choice? && j in Picked(d.picks) {
      var k :| 0 <= k < |d.picks| && d.picks[k].0 == j;
      assert HasEdge(g, i, d.picks[k].0);
    }
  }

  /** With those edges, every read of every evaluation is covered, short-circuits and choice loops included. */
  lemma EdgesCover(g: Graph, s: System)
    requires WellFormed(g) && GroupsLinked(g) && PicksLinked(g)
    requires forall a {:trigger s.tree(a)} :: s.tree(a) == TreeOf(g, a)
    ensures Covered(s, EdgesOf(g))
  {
    hide Scope;
    forall a: Attr, b: Attr | b in Reads(s.tree(a))
      ensures HasEdge(g, a.item, b.item)
    {
      assert s.tree(a) == TreeOf(g, a);
      TreeWithin(g, a);
      WithinReads(TreeOf(g, a), InScope(g, a.item), b);
      ScopeLinked(g, a.item, b.item);
    }
    forall a: Attr | a.item !in g.Defined() ensures s.tree(a).Ret? {
      assert s.tree(a) == TreeOf(g, a);
    }
  }

  lemma CompareKeeps(op: Rel, b: nat, n: Tree, y: Tree)
    ensures Reads(n) + Reads(y) <= Reads(Compare(op, 1, b, n, y))
  {
  }

  lemma ModeKeeps(g: Graph, c: nat, n: Tree, m: Tree, y: Tree)
    requires g.IsChoice(c)
    ensures Reads(n) + Reads(y) <= Reads(Mode(g, c, n, m, y))
  {
    assert Reads(n) + Reads(y) <= Reads(Limit(g, c, 2, n, m, y));
  }

  /** No expression is so simple that its evaluation cannot come out as n, or as y. */
  lemma {:induction false} EvalKeeps(g: Graph, e: Expr, n: Tree, m: Tree, y: Tree)
    ensures Reads(n) + Reads(y) <= Reads(Eval(g, e, n, m, y))
  {
    match e
    case Item(i) =>
      if g.IsChoice(i) {
        ModeKeeps(g, i, n, m, y);
      }
    case And(l, r) =>
      EvalKeeps(g, r, n, m, y);
      EvalKeeps(g, l, n, Eval(g, r, n, m, m), Eval(g, r, n, m, y));
    case Or(l, r) =>
      EvalKeeps(g, r, n, m, y);
      EvalKeeps(g, l, Eval(g, r, n, m, y), Eval(g, r, m, m, y), y);
    case Not(x) => EvalKeeps(g, x, y, m, n);
    case Relation(op, a, b) => CompareKeeps(op, b, n, y);
  }

  lemma {:induction false} PickRead(g: Graph, d: Node, ds: seq<(nat, Expr)>, k: nat)
    requires d.Choice? && k < |ds|
    ensures Attr(ds[k].0, Vis) in Reads(DefaultSelected(g, d, ds))
  {
    var rest := DefaultSelected(g, d, ds[1..]);
    var taken := Case(Attr(ds[0].0, Vis), 0, rest, Ret(ds[0].0));
    EvalKeeps(g, ds[0].1, rest, taken, taken);
    if k == 0 {
      assert Attr(ds[0].0, Vis) in Reads(taken);
    } else {
      PickRead(g, d, ds[1..], k - 1);
    }
  }

  lemma {:induction false} RestRead(g: Graph, c: nat, d: Node, ss: seq<nat>)
    requires d.Choice?
    ensures Reads(DefaultSelected(g, d, d.picks)) <= Reads(UserSelected(g, c, d, ss))
  {
    if ss == [] {
    } else {
      RestRead(g, c, d, ss[1..]);
    }
  }

  /** A default of a choice is read by the selection of the choice, wherever the default lies. */
  lemma SelReadsPick(g: Graph, c: nat, k: nat)
    requires g.IsChoice(c) && k < |g.nodes[c].picks|
    ensures Attr(g.nodes[c].picks[k].0, Vis) in Reads(TreeOf(g, Attr(c, Sel)))
  {
    var d := g.nodes[c];
    PickRead(g, d, d.picks, k);
    RestRead(g, c, d, d.syms);
    ModeKeeps(g, c, Ret(NONE), Ret(NONE), UserSelected(g, c, d, d.syms));
  }

  /** The edges cover every read if and only if the choice of every symbol and every default of a
      choice has its edge. */
  lemma EdgesCoverIff(g: Graph, s: System)
    requires WellFormed(g) && forall a {:trigger s.tree(a)} :: s.tree(a) == TreeOf(g, a)
    ensures Covered(s, EdgesOf(g)) <==> GroupsLinked(g) && PicksLinked(g)
  {
    hide Scope, Dependents, HasEdge;
    if GroupsLinked(g) && PicksLinked(g) {
      EdgesCover(g, s);
    }
    if Covered(s, EdgesOf(g)) {
      forall a: Attr, b: Attr | b in Reads(TreeOf(g, a)) ensures HasEdge(g, a.item, b.item) {
        assert s.tree(a) == TreeOf(g, a);
        CoveredEdge(g, s, a, b);
      }
      forall i | i in g.nodes && g.nodes[i].Symbol? && g.nodes[i].choice.Some?
        ensures HasEdge(g, i, g.nodes[i].choice.value)
      {
        TriReadsGroup(g, i);
      }
      forall i, k | g.IsChoice(i) && 0 <= k < |g.nodes[i].picks| ensures HasEdge(g, i, g.nodes[i].picks[k].0) {
        SelReadsPick(g, i, k);
      }
    }
  }

  lemma TriReadsGroup(g: Graph, i: nat)
    requires i in g.nodes && g.nodes[i].Symbol? && g.nodes[i].choice.Some?
    ensures Attr(g.nodes[i].choice.value, Sel) in Reads(TreeOf(g, Attr(i, Tri)))
  {
    var c := Case(Attr(g.nodes[i].choice.value, Sel), i, Ret(2), Ret(0));
    assert Attr(g.nodes[i].choice.value, Sel) in Reads(c);
  }

  lemma CoveredEdge(g: Graph, s: System, a: Attr, b: Attr)
    requires Covered(s, EdgesOf(g)) && b in Reads(s.tree(a))
    ensures HasEdge(g, a.item, b.item)
  {
    assert EdgesOf(g).dependents(b.item) == Dependents(g, b.item);
  }

  /** Reading the mode of a choice goes through its visibility. */
  lemma ModeReadsVis(s: System, g: Graph, c: nat, n: Tree, m: Tree, y: Tree)
    requires g.IsChoice(c)
    ensures Attr(c, Vis) in Trail(s, Mode(g, c, n, m, y))
  {
    forall v ensures Attr(c, Vis) in Trail(s, Limit(g, c, v, n, m, y)) {
    }
  }

  /** Every evaluation other than the visibility itself starts with the visibility. */
  lemma TreesFlagged(g: Graph, s: System)
    requires forall a {:trigger s.tree(a)} :: s.tree(a) == TreeOf(g, a)
    ensures Flagged(s)
  {
    forall a: Attr | a.kind != Vis && s.tree(a).Case? ensures Attr(a.item, Vis) in Needs(s, a) {
      assert s.tree(a) == TreeOf(g, a);
      if a.kind == Sel {
        var d := g.nodes[a.item];
        ModeReadsVis(s, g, a.item, Ret(NONE), Ret(NONE), UserSelected(g, a.item, d, d.syms));
      }
    }
  }
}

/** What the evaluations compute, said without trees: the meaning of visibility, value and selection. */
module KconfigMeaning {
  import opened KExpr
  import opened LazyCache
  import opened KconfigGraph
  import opened KconfigEdges
  import opened Numbers

  /** A value for every attribute. */
  type Valuation = Attr -> int

  function Walk(t: Tree, val: Valuation): (v: int) {
    match t
    case Ret(v) => v
    case Case(a, on, eq, ne) => if val(a) == on then Walk(eq, val) else Walk(ne, val)
  }

  /** Tristates where tristates are expected. */
  ghost predicate Sane(val: Valuation) {
    forall i {:trigger val(Attr(i, Vis))} {:trigger val(Attr(i, Tri))} {:trigger val(Attr(i, User))} ::
      0 <= val(Attr(i, Vis)) <= 2 && 0 <= val(Attr(i, Tri)) <= 2 && NONE <= val(Attr(i, User)) <= 2
  }

  /** The mode of a choice: at least m unless it is optional, what the user wants, at most the
      visibility, and y instead of m without modules. */
  function ModeOf(g: Graph, val: Valuation, c: nat): (v: int)
    requires g.IsChoice(c)
  {
    var wanted := Max(if g.nodes[c].optional then 0 else 1, val(Attr(c, User)));
    var v := Min(wanted, val(Attr(c, Vis)));
    if v == 1 && (!g.nodes[c].tristate || val(Attr(g.modules, Tri)) == 0) then 2 else v
  }

  function ItemOf(g: Graph, val: Valuation, i: nat): (v: int) {
    if g.IsChoice(i) then ModeOf(g, val, i) else val(Attr(i, Tri))
  }

  function Env(g: Graph, val: Valuation): (env: nat -> int) {
    (i: nat) => ItemOf(g, val, i)
  }

  /** Operands of relations are symbols. */
  function Operands(val: Valuation): (num: nat -> int) {
    (i: nat) => val(Attr(i, Tri))
  }

  function ValueOf(g: Graph, val: Valuation, e: Expr): (v: int) {
    ExprValue(e, Env(g, val), Operands(val))
  }

  lemma ModeMeaning(g: Graph, val: Valuation, c: nat, n: Tree, m: Tree, y: Tree)
    requires g.IsChoice(c) && Sane(val)
    ensures 0 <= ModeOf(g, val, c) <= 2
    ensures Walk(Mode(g, c, n, m, y), val) == Walk(Pick(ModeOf(g, val, c), n, m, y), val)
  {
    var optional := Case(Attr(c, User), 1, Limit(g, c, 1, n, m, y), Limit(g, c, 0, n, m, y));
    assert Walk(optional, val) == Walk(Limit(g, c, if val(Attr(c, User)) == 1 then 1 else 0, n, m, y), val);
    LimitMeaning(g, val, c, 0, n, m, y);
    LimitMeaning(g, val, c, 1, n, m, y);
    LimitMeaning(g, val, c, 2, n, m, y);
  }

  lemma AskMeaning(val: Valuation, a: Attr, n: Tree, m: Tree, y: Tree)
    requires 0 <= val(a) <= 2
    ensures Walk(Ask(a, n, m, y), val) == Walk(Pick(val(a), n, m, y), val)
  {
  }

  lemma LimitMeaning(g: Graph, val: Valuation, c: nat, v: int, n: Tree, m: Tree, y: Tree)
    requires g.IsChoice(c) && Sane(val) && 0 <= v <= 2
    ensures var w := Min(v, val(Attr(c, Vis)));
            Walk(Limit(g, c, v, n, m, y), val) ==
              Walk(Pick(if w == 1 && (!g.nodes[c].tristate || val(Attr(g.modules, Tri)) == 0) then 2 else w, n, m, y),
                   val)
  {
    var promoted := if g.nodes[c].tristate then Case(Attr(g.modules, Tri), 0, y, m) else y;
    AskMeaning(val, Attr(c, Vis), n, Pick(Min(v, 1), n, promoted, y), Pick(v, n, promoted, y));
  }

  /** Short-circuiting does not change the value of an expression. */
  lemma {:induction false} EvalMeaning(g: Graph, val: Valuation, e: Expr, n: Tree, m: Tree, y: Tree)
    requires Sane(val)
    ensures 0 <= ValueOf(g, val, e) <= 2
    ensures Walk(Eval(g, e, n, m, y), val) == Walk(Pick(ValueOf(g, val, e), n, m, y), val)
  {
    match e
    case Item(i) =>
      if g.IsChoice(i) {
        ModeMeaning(g, val, i, n, m, y);
      }
    case And(l, r) =>
      EvalMeaning(g, val, r, n, m, m);
      EvalMeaning(g, val, r, n, m, y);
      EvalMeaning(g, val, l, n, Eval(g, r, n, m, m), Eval(g, r, n, m, y));
    case Or(l, r) =>
      EvalMeaning(g, val, r, n, m, y);
      EvalMeaning(g, val, r, m, m, y);
      EvalMeaning(g, val, l, Eval(g, r, n, m, y), Eval(g, r, m, m, y), y);
    case Not(x) => EvalMeaning(g, val, x, y, m, n);
    case Relation(op, a, b) =>
      forall x
        ensures Walk(Compare(op, x, b, n, y), val) == Walk(if Holds(op, x, val(Attr(b, Tri))) then y else n, val)
      {
      }
  }

  /** The most permissive prompt condition. */
  function BestPrompt(g: Graph, val: Valuation, ps: seq<Expr>): (v: int) {
    if ps == [] then 0 else Max(ValueOf(g, val, ps[0]), BestPrompt(g, val, ps[1..]))
  }

  lemma {:induction false} PromptsMeaning(g: Graph, val: Valuation, ps: seq<Expr>, best: int, n: Tree, m: Tree, y: Tree)
    requires Sane(val) && 0 <= best <= 2
    ensures 0 <= BestPrompt(g, val, ps) <= 2
    ensures Walk(Prompts(g, ps, best, n, m, y), val) == Walk(Pick(Max(best, BestPrompt(g, val, ps)), n, m, y), val)
  {
    if ps == [] {
    } else {
      PromptsMeaning(g, val, ps[1..], best, n, m, y);
      PromptsMeaning(g, val, ps[1..], Max(best, 1), n, m, y);
      PromptsMeaning(g, val, ps[1..], 2, n, m, y);
      EvalMeaning(g, val, ps[0], Prompts(g, ps[1..], best, n, m, y), Prompts(g, ps[1..], Max(best, 1), n, m, y),
                  Prompts(g, ps[1..], 2, n, m, y));
    }
  }

  /** A tristate symbol counts as bool in a y-mode choice and without modules. */
  predicate IsBool(g: Graph, val: Valuation, d: Node)
    requires d.Symbol?
  {
    || !d.tristate
    || (d.choice.Some? && g.IsChoice(d.choice.value) && ModeOf(g, val, d.choice.value) == 2)
    || val(Attr(g.modules, Tri)) == 0
  }

  lemma IfBoolMeaning(g: Graph, val: Valuation, d: Node, yes: Tree, no: Tree)
    requires d.Symbol? && Sane(val)
    ensures Walk(IfBool(g, d, yes, no), val) == Walk(if IsBool(g, val, d) then yes else no, val)
  {
    var byModules := Case(Attr(g.modules, Tri), 0, yes, no);
    if d.choice.Some? && g.IsChoice(d.choice.value) {
      ModeMeaning(g, val, d.choice.value, byModules, byModules, yes);
    }
  }

  function VisOf(g: Graph, val: Valuation, d: Node): (v: int)
    requires d.Symbol?
  {
    var best := BestPrompt(g, val, d.prompts);
    var grouped := d.choice.Some? && g.IsChoice(d.choice.value);
    if grouped && g.nodes[d.choice.value].tristate && !d.tristate && ModeOf(g, val, d.choice.value) != 2 then 0
    else if grouped && d.tristate && best == 1 && ModeOf(g, val, d.choice.value) == 2 then 0
    else if best == 1 && IsBool(g, val, d) then 2
    else best
  }

  lemma SymbolVisMeaning(g: Graph, val: Valuation, d: Node)
    requires d.Symbol? && Sane(val)
    ensures 0 <= VisOf(g, val, d) <= 2
    ensures Walk(SymbolVis(g, d), val) == VisOf(g, val, d)
  {
    PromptsMeaning(g, val, d.prompts, 0, InChoice(g, d, 0), InChoice(g, d, 1), InChoice(g, d, 2));
    IfBoolMeaning(g, val, d, Ret(2), Ret(1));
    var best := BestPrompt(g, val, d.prompts);
    if d.choice.Some? && g.IsChoice(d.choice.value) {
      var promoted := if best == 1 then IfBool(g, d, Ret(2), Ret(1)) else Ret(best);
      ModeMeaning(g, val, d.choice.value, Ret(0), Ret(0), promoted);
      ModeMeaning(g, val, d.choice.value, promoted, promoted, Ret(0));
    }
  }

  /** The value of the first default whose condition is not n, up to that condition. */
  function DefaultOf(g: Graph, val: Valuation, ds: seq<(Expr, Expr)>): (v: int) {
    if ds == [] then 0
    else if ValueOf(g, val, ds[0].1) != 0 then Min(ValueOf(g, val, ds[0].0), ValueOf(g, val, ds[0].1))
    else DefaultOf(g, val, ds[1..])
  }

  /** A value raised by selects, and then m promoted to y where m is not available. */
  function RaisedOf(g: Graph, val: Valuation, d: Node, v: int): (r: int)
    requires d.Symbol?
  {
    var w := Max(ValueOf(g, val, d.revDep), v);
    if w == 1 && (IsBool(g, val, d) || ValueOf(g, val, d.weakRevDep) == 2) then 2 else w
  }

  function ImpliedOf(g: Graph, val: Valuation, d: Node, v: int): (r: int)
    requires d.Symbol?
  {
    if ValueOf(g, val, d.directDep) != 0 then Max(ValueOf(g, val, d.weakRevDep), v) else v
  }

  lemma SelectedMeaning(g: Graph, val: Valuation, d: Node, v: int)
    requires d.Symbol? && Sane(val) && 0 <= v <= 2
    ensures 0 <= RaisedOf(g, val, d, v) <= 2
    ensures Walk(Selected(g, d, v), val) == RaisedOf(g, val, d, v)
  {
    var weak := Eval(g, d.weakRevDep, Ret(1), Ret(1), Ret(2));
    EvalMeaning(g, val, d.weakRevDep, Ret(1), Ret(1), Ret(2));
    IfBoolMeaning(g, val, d, Ret(2), weak);
    var p, q := Promoted(g, d, Max(1, v)), Promoted(g, d, Max(2, v));
    EvalMeaning(g, val, d.directDep, p, p, p);
    EvalMeaning(g, val, d.directDep, q, q, q);
    EvalMeaning(g, val, d.revDep, Promoted(g, d, v), Eval(g, d.directDep, p, p, p), Eval(g, d.directDep, q, q, q));
  }

  lemma ImpliedMeaning(g: Graph, val: Valuation, d: Node, v: int)
    requires d.Symbol? && Sane(val) && 0 <= v <= 2
    ensures 0 <= RaisedOf(g, val, d, ImpliedOf(g, val, d, v)) <= 2
    ensures Walk(Implied(g, d, v), val) == RaisedOf(g, val, d, ImpliedOf(g, val, d, v))
  {
    SelectedMeaning(g, val, d, v);
    SelectedMeaning(g, val, d, Max(1, v));
    SelectedMeaning(g, val, d, Max(2, v));
    var o, p, q := Selected(g, d, v), Selected(g, d, Max(1, v)), Selected(g, d, Max(2, v));
    EvalMeaning(g, val, d.directDep, o, p, p);
    EvalMeaning(g, val, d.directDep, o, q, q);
    EvalMeaning(g, val, d.weakRevDep, o, Eval(g, d.directDep, o, p, p), Eval(g, d.directDep, o, q, q));
  }

  lemma {:induction false} DefaultsMeaning(g: Graph, val: Valuation, d: Node, ds: seq<(Expr, Expr)>)
    requires d.Symbol? && Sane(val)
    ensures 0 <= DefaultOf(g, val, ds) <= 2
            && 0 <= RaisedOf(g, val, d, ImpliedOf(g, val, d, DefaultOf(g, val, ds))) <= 2
    ensures Walk(Defaults(g, d, ds), val) == RaisedOf(g, val, d, ImpliedOf(g, val, d, DefaultOf(g, val, ds)))
  {
    hide ValueOf;
    var i0, i1, i2 := Implied(g, d, 0), Implied(g, d, 1), Implied(g, d, 2);
    ImpliedMeaning(g, val, d, 0);
    ImpliedMeaning(g, val, d, 1);
    ImpliedMeaning(g, val, d, 2);
    if ds == [] {
    } else {
      DefaultsMeaning(g, val, d, ds[1..]);
      EvalMeaning(g, val, ds[0].0, i0, i1, i1);
      EvalMeaning(g, val, ds[0].0, i0, i1, i2);
      EvalMeaning(g, val, ds[0].1, Defaults(g, d, ds[1..]), Eval(g, ds[0].0, i0, i1, i1), Eval(g, ds[0].0, i0, i1, i2));
    }
  }

  lemma ChoiceVisMeaning(g: Graph, val: Valuation, ch: Node)
    requires ch.Choice? && Sane(val)
    ensures 0 <= ChoiceVisOf(g, val, ch) <= 2
    ensures Walk(ChoiceVis(g, ch), val) == ChoiceVisOf(g, val, ch)
  {
    var m := if ch.tristate then Case(Attr(g.modules, Tri), 0, Ret(2), Ret(1)) else Ret(2);
    PromptsMeaning(g, val, ch.prompts, 0, Ret(0), m, Ret(2));
  }

  function ChoiceVisOf(g: Graph, val: Valuation, ch: Node): (v: int)
    requires ch.Choice?
  {
    var best := BestPrompt(g, val, ch.prompts);
    if best == 1 && (!ch.tristate || val(Attr(g.modules, Tri)) == 0) then 2 else best
  }

  /** The tristate value of a symbol. */
  function TriOf(g: Graph, val: Valuation, i: nat, d: Node): (v: int)
    requires d.Symbol?
  {
    var vis, user := val(Attr(i, Vis)), val(Attr(i, User));
    if d.choice.Some? then
      if vis == 2 then if val(Attr(d.choice.value, Sel)) == i then 2 else 0
      else if vis == 1 && user >= 1 then 1
      else 0
    else if vis != 0 && user != NONE then RaisedOf(g, val, d, Min(user, vis))
    else RaisedOf(g, val, d, ImpliedOf(g, val, d, DefaultOf(g, val, d.defaults)))
  }

  lemma SymbolTriMeaning(g: Graph, val: Valuation, i: nat, d: Node)
    requires d.Symbol? && Sane(val)
    ensures 0 <= TriOf(g, val, i, d) <= 2
    ensures Walk(SymbolTri(g, i, d), val) == TriOf(g, val, i, d)
  {
    if d.choice.Some? {
      var user := Attr(i, User);
      var u := Case(user, 1, Ret(1), Case(user, 2, Ret(1), Ret(0)));
      assert Walk(Case(user, 2, Ret(1), Ret(0)), val) == if val(user) == 2 then 1 else 0;
      AskMeaning(val, Attr(i, Vis), Ret(0), u, Case(Attr(d.choice.value, Sel), i, Ret(2), Ret(0)));
    } else {
      UserValueMeaning(g, val, i, d, 1);
      UserValueMeaning(g, val, i, d, 2);
      DefaultsMeaning(g, val, d, d.defaults);
      AskMeaning(val, Attr(i, Vis), Defaults(g, d, d.defaults), UserValue(g, i, d, 1), UserValue(g, i, d, 2));
    }
  }

  lemma UserValueMeaning(g: Graph, val: Valuation, i: nat, d: Node, vis: int)
    requires d.Symbol? && Sane(val) && 1 <= vis <= 2
    ensures val(Attr(i, User)) != NONE ==> 0 <= RaisedOf(g, val, d, Min(val(Attr(i, User)), vis)) <= 2
    ensures Walk(UserValue(g, i, d, vis), val) ==
      if val(Attr(i, User)) != NONE then RaisedOf(g, val, d, Min(val(Attr(i, User)), vis))
      else Walk(Defaults(g, d, d.defaults), val)
  {
    var user := Attr(i, User);
    var third := Case(user, 2, Selected(g, d, vis), Defaults(g, d, d.defaults));
    var second := Case(user, 1, Selected(g, d, 1), third);
    assert Walk(third, val) == Walk(if val(user) == 2 then Selected(g, d, vis) else Defaults(g, d, d.defaults), val);
    assert Walk(second, val) == Walk(if val(user) == 1 then Selected(g, d, 1) else third, val);
    SelectedMeaning(g, val, d, 0);
    SelectedMeaning(g, val, d, 1);
    SelectedMeaning(g, val, d, 2);
  }

  function FirstVisibleOf(val: Valuation, ss: seq<nat>): (v: int) {
    if ss == [] then NONE else if val(Attr(ss[0], Vis)) != 0 then ss[0] else FirstVisibleOf(val, ss[1..])
  }

  function DefaultPick(g: Graph, val: Valuation, ch: Node, ds: seq<(nat, Expr)>): (v: int)
    requires ch.Choice?
  {
    if ds == [] then FirstVisibleOf(val, ch.syms)
    else if ValueOf(g, val, ds[0].1) != 0 && val(Attr(ds[0].0, Vis)) != 0 then ds[0].0
    else DefaultPick(g, val, ch, ds[1..])
  }

  /** The selection of a choice: the user's if that is visible, else the first visible default, else
      the first visible symbol. */
  function SelOf(g: Graph, val: Valuation, c: nat): (v: int)
    requires g.IsChoice(c)
  {
    var ch, picked := g.nodes[c], val(Attr(c, UserSel));
    if ModeOf(g, val, c) != 2 then NONE
    else if picked >= 0 && picked in ch.syms && val(Attr(picked, Vis)) != 0 then picked
    else DefaultPick(g, val, ch, ch.picks)
  }

  lemma {:induction false} FirstVisibleMeaning(val: Valuation, ss: seq<nat>)
    ensures Walk(FirstVisible(ss), val) == FirstVisibleOf(val, ss)
  {
    if ss == [] {
    } else {
      FirstVisibleMeaning(val, ss[1..]);
    }
  }

  lemma {:induction false} DefaultSelectedMeaning(g: Graph, val: Valuation, ch: Node, ds: seq<(nat, Expr)>)
    requires ch.Choice? && Sane(val)
    ensures Walk(DefaultSelected(g, ch, ds), val) == DefaultPick(g, val, ch, ds)
  {
    if ds == [] {
      FirstVisibleMeaning(val, ch.syms);
    } else {
      DefaultSelectedMeaning(g, val, ch, ds[1..]);
      var rest := DefaultSelected(g, ch, ds[1..]);
      var taken := Case(Attr(ds[0].0, Vis), 0, rest, Ret(ds[0].0));
      EvalMeaning(g, val, ds[0].1, rest, taken, taken);
    }
  }

  lemma {:induction false} UserSelectedMeaning(g: Graph, val: Valuation, c: nat, ch: Node, ss: seq<nat>)
    requires ch.Choice?
    ensures var picked, rest := val(Attr(c, UserSel)), Walk(DefaultSelected(g, ch, ch.picks), val);
            Walk(UserSelected(g, c, ch, ss), val) ==
              if picked >= 0 && picked in ss && val(Attr(picked, Vis)) != 0 then picked else rest
  {
    if ss == [] {
    } else {
      UserSelectedMeaning(g, val, c, ch, ss[1..]);
      var rest := DefaultSelected(g, ch, ch.picks);
      var here := Case(Attr(ss[0], Vis), 0, rest, Ret(ss[0]));
      assert Walk(here, val) == if val(Attr(ss[0], Vis)) == 0 then Walk(rest, val) else ss[0];
    }
  }

  lemma ChoiceSelMeaning(g: Graph, val: Valuation, c: nat)
    requires g.IsChoice(c) && Sane(val)
    ensures Walk(ChoiceSel(g, c, g.nodes[c]), val) == SelOf(g, val, c)
  {
    var ch := g.nodes[c];
    UserSelectedMeaning(g, val, c, ch, ch.syms);
    DefaultSelectedMeaning(g, val, ch, ch.picks);
    ModeMeaning(g, val, c, Ret(NONE), Ret(NONE), UserSelected(g, c, ch, ch.syms));
  }

  /** What an attribute means, given the values of the others. */
  function MeaningOf(g: Graph, val: Valuation, a: Attr): (v: int) {
    if a.item !in g.nodes then 0
    else
      var d := g.nodes[a.item];
      if d.Symbol? && a.kind == Vis then VisOf(g, val, d)
      else if d.Symbol? && a.kind == Tri then TriOf(g, val, a.item, d)
      else if d.Choice? && a.kind == Vis then ChoiceVisOf(g, val, d)
      else if d.Choice? && a.kind == Sel then SelOf(g, val, a.item)
      else if d.Constant? && a.kind == Tri then d.v
      else 0
  }

  lemma TreeMeaning(g: Graph, val: Valuation, a: Attr)
    requires Sane(val) && WellFormed(g)
    ensures a.kind == Vis || a.kind == Tri ==> 0 <= MeaningOf(g, val, a) <= 2
    ensures Walk(TreeOf(g, a), val) == MeaningOf(g, val, a)
  {
    hide VisOf, TriOf, ChoiceVisOf, SelOf, SymbolVis, SymbolTri, ChoiceVis, ChoiceSel;
    if a.item in g.nodes {
      var d := g.nodes[a.item];
      match d
      case Symbol(_, _, _, _, _, _, _) => SymbolVisMeaning(g, val, d); SymbolTriMeaning(g, val, a.item, d);
      case Choice(_, _, _, _, _) => ChoiceVisMeaning(g, val, d); ChoiceSelMeaning(g, val, a.item);
      case Constant(_) =>
    }
  }

  ghost predicate UserInRange(s: System) {
    forall i {:trigger s.given(Attr(i, User))} :: NONE <= s.given(Attr(i, User)) <= 2
  }

  ghost predicate Evaluates(s: System, g: Graph) {
    && Ranked(s)
    && UserInRange(s)
    && forall a {:trigger s.tree(a)} :: s.tree(a) == TreeOf(g, a)
  }

  lemma {:induction false} FollowWalk(s: System, t: Tree, r: nat, val: Valuation)
    requires Ranked(s) && Below(s, t, r)
    requires forall b :: b in Trail(s, t) ==> val(b) == Value(s, b)
    ensures Follow(s, t, r) == Walk(t, val)
  {
    match t
    case Ret(_) =>
    case Case(a, on, eq, ne) =>
      FollowWalk(s, if Value(s, a) == on then eq else ne, r, val);
  }

  /** Values from scratch, as far as they have a lower rank. */
  ghost function Lower(s: System, r: nat): (val: Valuation) {
    (b: Attr) => if s.rank(b) < r then Value(s, b) else 0
  }

  lemma {:induction false} TrailBelow(s: System, t: Tree, r: nat, b: Attr)
    requires Below(s, t, r) && b in Trail(s, t)
    ensures s.rank(b) < r
  {
    if b == t.a {
    } else {
      TrailBelow(s, if Value(s, t.a) == t.on then t.eq else t.ne, r, b);
    }
  }

  lemma {:induction false} ValuesSane(s: System, g: Graph, a: Attr)
    requires Evaluates(s, g) && WellFormed(g)
    ensures a.kind == Vis || a.kind == Tri ==> 0 <= Value(s, a) <= 2
    decreases s.rank(a)
  {
    hide TreeOf, MeaningOf, Walk, Follow, WellFormed;
    forall b: Attr | s.rank(b) < s.rank(a) && (b.kind == Vis || b.kind == Tri) ensures 0 <= Value(s, b) <= 2 {
      ValuesSane(s, g, b);
    }
    if a.kind == Vis || a.kind == Tri {
      var val := Lower(s, s.rank(a));
      assert Sane(val);
      assert s.tree(a) == TreeOf(g, a);
      assert Below(s, s.tree(a), s.rank(a));
      forall b | b in Trail(s, s.tree(a)) ensures val(b) == Value(s, b) {
        TrailBelow(s, s.tree(a), s.rank(a), b);
      }
      FollowWalk(s, s.tree(a), s.rank(a), val);
      TreeMeaning(g, val, a);
    }
  }

  /** All values from scratch. */
  ghost function Values(s: System): (val: Valuation) {
    (b: Attr) => Value(s, b)
  }

  lemma ValuesRange(s: System, g: Graph)
    requires Evaluates(s, g) && WellFormed(g)
    ensures Sane(Values(s))
  {
    hide WellFormed;
    var val := Values(s);
    forall i ensures 0 <= val(Attr(i, Vis)) <= 2 && 0 <= val(Attr(i, Tri)) <= 2 && NONE <= val(Attr(i, User)) <= 2 {
      ValuesSane(s, g, Attr(i, Vis));
      ValuesSane(s, g, Attr(i, Tri));
      assert Value(s, Attr(i, User)) == s.given(Attr(i, User));
    }
  }

  /** The value from scratch is the meaning over the values from scratch: a solution of all the
      equations at once. */
  lemma ValueMeaning(s: System, g: Graph, a: Attr)
    requires Evaluates(s, g) && WellFormed(g) && !a.Given()
    ensures Value(s, a) == MeaningOf(g, Values(s), a)
  {
    hide TreeOf, MeaningOf, Walk, Follow, WellFormed;
    var val := Values(s);
    ValuesRange(s, g);
    assert s.tree(a) == TreeOf(g, a);
    assert Below(s, s.tree(a), s.rank(a));
    FollowWalk(s, s.tree(a), s.rank(a), val);
    TreeMeaning(g, val, a);
  }
}
