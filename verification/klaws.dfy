/** What the values that tools/kconfiglib.py computes promise, in terms of what the user gave. */
module KconfigLaws {
  import opened KExpr
  import opened LazyCache
  import opened KconfigGraph
  import opened KconfigEdges
  import opened KconfigMeaning
  import opened KconfigValues
  import opened Options
  import opened Numbers

  /** The tristate value from scratch. */
  ghost function TriValue(s: System, i: nat): (v: int) {
    Value(s, Attr(i, Tri))
  }

  ghost function Visibility(s: System, i: nat): (v: int) {
    Value(s, Attr(i, Vis))
  }

  /** A symbol that is in no choice. */
  predicate Free(g: Graph, i: nat) {
    i in g.nodes && g.nodes[i].Symbol? && g.nodes[i].choice.None?
  }

  /** The value of an expression from scratch. */
  ghost function ExprOf(s: System, g: Graph, e: Expr): (v: int) {
    ValueOf(g, Values(s), e)
  }

  /** m is not available: the symbol is bool, or there are no modules. */
  ghost predicate NoM(s: System, g: Graph, i: nat)
    requires Free(g, i)
  {
    !g.nodes[i].tristate || TriValue(s, g.modules) == 0
  }

  /** m becomes y where m is not available. */
  ghost function Rounded(s: System, g: Graph, i: nat, v: int): (r: int)
    requires Free(g, i)
  {
    if v == 1 && (NoM(s, g, i) || ExprOf(s, g, g.nodes[i].weakRevDep) == 2) then 2 else v
  }

  /** A visible symbol has the value the user gave it, up to its visibility, or what selects it if that is more. */
  lemma UserDecides(s: System, g: Graph, i: nat)
    requires Evaluates(s, g) && WellFormed(g) && Free(g, i)
    requires s.given(Attr(i, User)) != NONE && Visibility(s, i) != 0
    ensures TriValue(s, i) ==
            Rounded(s, g, i, Max(ExprOf(s, g, g.nodes[i].revDep), Min(s.given(Attr(i, User)), Visibility(s, i))))
  {
    hide WellFormed, VisOf, Follow;
    assert Value(s, Attr(i, User)) == s.given(Attr(i, User));
    ValueMeaning(s, g, Attr(i, Tri));
    ValuesRange(s, g);
    hide Value;
  }

  /** The first default whose condition is not n is default `k`. */
  ghost predicate FirstDefault(s: System, g: Graph, ds: seq<(Expr, Expr)>, k: nat) {
    && k < |ds| && ExprOf(s, g, ds[k].1) != 0
    && forall j :: 0 <= j < k ==> ExprOf(s, g, ds[j].1) == 0
  }

  lemma {:induction false} DefaultAt(s: System, g: Graph, ds: seq<(Expr, Expr)>, k: nat)
    requires FirstDefault(s, g, ds, k)
    ensures DefaultOf(g, Values(s), ds) == Min(ExprOf(s, g, ds[k].0), ExprOf(s, g, ds[k].1))
  {
    hide ValueOf, Values;
    if k == 0 {
    } else {
      assert ExprOf(s, g, ds[0].1) == 0;
      assert FirstDefault(s, g, ds[1..], k - 1) by {
        forall j | 0 <= j < k - 1 ensures ExprOf(s, g, ds[1..][j].1) == 0 {
          assert ds[1..][j] == ds[j + 1];
        }
      }
      DefaultAt(s, g, ds[1..], k - 1);
    }
  }

  lemma {:induction false} NoDefault(s: System, g: Graph, ds: seq<(Expr, Expr)>)
    requires forall j :: 0 <= j < |ds| ==> ExprOf(s, g, ds[j].1) == 0
    ensures DefaultOf(g, Values(s), ds) == 0
  {
    hide ValueOf, Values;
    if ds == [] {
    } else {
      assert ExprOf(s, g, ds[0].1) == 0;
      forall j | 0 <= j < |ds[1..]| ensures ExprOf(s, g, ds[1..][j].1) == 0 {
        assert ds[1..][j] == ds[j + 1];
      }
      NoDefault(s, g, ds[1..]);
    }
  }

  /** What implies the symbol, where its direct dependencies are met, and what selects it. */
  ghost function Pushed(s: System, g: Graph, i: nat): (v: int)
    requires Free(g, i)
  {
    Max(ExprOf(s, g, g.nodes[i].revDep),
        if ExprOf(s, g, g.nodes[i].directDep) != 0 then ExprOf(s, g, g.nodes[i].weakRevDep) else 0)
  }

  /** Without a user value, or where it is not visible, a symbol has the value of its first default whose
      condition is not n, up to that condition, and n if there is none; or what implies or selects it if that
      is more. */
  lemma DefaultDecides(s: System, g: Graph, i: nat, k: nat)
    requires Evaluates(s, g) && WellFormed(g) && Free(g, i)
    requires s.given(Attr(i, User)) == NONE || Visibility(s, i) == 0
    ensures var ds := g.nodes[i].defaults;
            && (FirstDefault(s, g, ds, k) ==>
                  TriValue(s, i) ==
                  Rounded(s, g, i, Max(Pushed(s, g, i), Min(ExprOf(s, g, ds[k].0), ExprOf(s, g, ds[k].1)))))
            && ((forall j :: 0 <= j < |ds| ==> ExprOf(s, g, ds[j].1) == 0) ==>
                  TriValue(s, i) == Rounded(s, g, i, Pushed(s, g, i)))
  {
    hide WellFormed, Follow, FirstDefault, DefaultOf, Value, Visibility, TriValue, Evaluates, Rounded, ExprOf;
    DefaultValue(s, g, i);
    var ds := g.nodes[i].defaults;
    if FirstDefault(s, g, ds, k) {
      DefaultAt(s, g, ds, k);
    }
    if forall j :: 0 <= j < |ds| ==> ExprOf(s, g, ds[j].1) == 0 {
      NoDefault(s, g, ds);
      PushedUp(s, g, i);
    }
  }

  lemma PushedUp(s: System, g: Graph, i: nat)
    requires Evaluates(s, g) && WellFormed(g) && Free(g, i)
    ensures Pushed(s, g, i) >= 0
  {
    hide WellFormed, Follow, Value;
    ValuesRange(s, g);
    EvalMeaning(g, Values(s), g.nodes[i].revDep, Ret(0), Ret(1), Ret(2));
  }

  lemma DefaultValue(s: System, g: Graph, i: nat)
    requires Evaluates(s, g) && WellFormed(g) && Free(g, i)
    requires s.given(Attr(i, User)) == NONE || Visibility(s, i) == 0
    ensures TriValue(s, i) ==
            Rounded(s, g, i, Max(Pushed(s, g, i), DefaultOf(g, Values(s), g.nodes[i].defaults)))
  {
    hide WellFormed, VisOf, Follow, DefaultOf;
    assert Value(s, Attr(i, User)) == s.given(Attr(i, User));
    ValueMeaning(s, g, Attr(i, Tri));
    ValuesRange(s, g);
    var d := g.nodes[i];
    EvalMeaning(g, Values(s), d.weakRevDep, Ret(0), Ret(1), Ret(2));
    DefaultsMeaning(g, Values(s), d, d.defaults);
    hide Value, ValueOf;
  }

  /** Selects win: the value of a symbol is at least that of what selects it. Implies count where the direct
      dependencies are met and the user has not decided. */
  lemma Forced(s: System, g: Graph, i: nat)
    requires Evaluates(s, g) && WellFormed(g) && Free(g, i)
    ensures TriValue(s, i) >= ExprOf(s, g, g.nodes[i].revDep)
    ensures (s.given(Attr(i, User)) == NONE || Visibility(s, i) == 0) && ExprOf(s, g, g.nodes[i].directDep) != 0 ==>
              TriValue(s, i) >= ExprOf(s, g, g.nodes[i].weakRevDep)
    ensures NoM(s, g, i) ==> TriValue(s, i) != 1
  {
    hide WellFormed, VisOf, Follow, DefaultOf;
    assert Value(s, Attr(i, User)) == s.given(Attr(i, User));
    ValueMeaning(s, g, Attr(i, Tri));
    ValuesRange(s, g);
    var d := g.nodes[i];
    EvalMeaning(g, Values(s), d.revDep, Ret(0), Ret(1), Ret(2));
    EvalMeaning(g, Values(s), d.weakRevDep, Ret(0), Ret(1), Ret(2));
    DefaultsMeaning(g, Values(s), d, d.defaults);
    hide Value, ValueOf;
  }

  lemma {:induction false} BestOf(g: Graph, val: Valuation, ps: seq<Expr>)
    requires Sane(val)
    ensures BestPrompt(g, val, ps) != 0 <==> exists k :: 0 <= k < |ps| && ValueOf(g, val, ps[k]) != 0
    ensures BestPrompt(g, val, ps) == 2 <==> exists k :: 0 <= k < |ps| && ValueOf(g, val, ps[k]) == 2
    ensures 0 <= BestPrompt(g, val, ps) <= 2
  {
    hide ValueOf;
    if ps == [] {
    } else {
      EvalMeaning(g, val, ps[0], Ret(0), Ret(1), Ret(2));
      BestOf(g, val, ps[1..]);
      assert forall k :: 0 < k < |ps| ==> ps[k] == ps[1..][k - 1];
      assert forall k :: 0 <= k < |ps| - 1 ==> ps[1..][k] == ps[k + 1];
    }
  }

  /** A symbol is visible if and only if the condition of some prompt is not n, and to y if and only if
      the condition of some prompt is y, or m is not available. */
  lemma VisibleIff(s: System, g: Graph, i: nat)
    requires Evaluates(s, g) && WellFormed(g) && Free(g, i)
    ensures var ps := g.nodes[i].prompts;
            && (Visibility(s, i) != 0 <==> exists k :: 0 <= k < |ps| && ExprOf(s, g, ps[k]) != 0)
            && (Visibility(s, i) == 2 <==> (exists k :: 0 <= k < |ps| && ExprOf(s, g, ps[k]) == 2)
                                           || (NoM(s, g, i) && exists k :: 0 <= k < |ps| && ExprOf(s, g, ps[k]) != 0))
  {
    hide WellFormed, Follow, BestPrompt, ValueOf;
    ValueMeaning(s, g, Attr(i, Vis));
    ValuesRange(s, g);
    BestOf(g, Values(s), g.nodes[i].prompts);
    hide Value;
  }

  /** The mode of a choice. */
  ghost function ModeIn(s: System, g: Graph, c: nat): (v: int)
    requires g.IsChoice(c)
  {
    ModeOf(g, Values(s), c)
  }

  /** A choice that is not visible is in n mode, one that is visible and not optional is not; a bool choice
      and any choice without modules is never in m mode; y needs the user or the lack of m. */
  lemma ModeLaws(s: System, g: Graph, c: nat)
    requires Evaluates(s, g) && WellFormed(g) && g.IsChoice(c)
    ensures 0 <= ModeIn(s, g, c) <= 2
    ensures ModeIn(s, g, c) == 0 <==> Visibility(s, c) == 0 || (g.nodes[c].optional && s.given(Attr(c, User)) <= 0)
    ensures !g.nodes[c].tristate || TriValue(s, g.modules) == 0 ==> ModeIn(s, g, c) != 1
    ensures g.nodes[c].tristate && TriValue(s, g.modules) != 0 ==>
              (ModeIn(s, g, c) == 2 <==> Visibility(s, c) == 2 && s.given(Attr(c, User)) == 2)
  {
    hide WellFormed, Follow;
    assert Value(s, Attr(c, User)) == s.given(Attr(c, User));
    ValuesRange(s, g);
    hide Value;
  }

  ghost predicate Member(g: Graph, i: nat, c: nat) {
    i in g.nodes && g.nodes[i].Symbol? && g.nodes[i].choice == Some(c) && g.IsChoice(c)
  }

  /** A visible symbol of a choice in y mode is visible to y. */
  lemma MemberVisible(s: System, g: Graph, i: nat, c: nat)
    requires Evaluates(s, g) && WellFormed(g) && Member(g, i, c) && ModeIn(s, g, c) == 2
    ensures Visibility(s, i) == 0 || Visibility(s, i) == 2
  {
    hide WellFormed, Follow, BestPrompt, ModeOf;
    ValuesRange(s, g);
    BestOf(g, Values(s), g.nodes[i].prompts);
    ValueMeaning(s, g, Attr(i, Vis));
    hide Value;
  }

  lemma {:induction false} FirstVisibleIn(val: Valuation, ss: seq<nat>)
    ensures var f := FirstVisibleOf(val, ss);
            && (f == NONE <==> forall x :: x in ss ==> val(Attr(x, Vis)) == 0)
            && (f != NONE ==> f >= 0 && f in ss && val(Attr(f, Vis)) != 0)
  {
    if ss == [] {
    } else {
      FirstVisibleIn(val, ss[1..]);
    }
  }

  lemma {:induction false} PickIn(g: Graph, val: Valuation, ch: Node, ds: seq<(nat, Expr)>)
    requires ch.Choice?
    ensures var f := DefaultPick(g, val, ch, ds);
            && (f != NONE ==>
                  f >= 0 && val(Attr(f, Vis)) != 0 && (f in ch.syms || exists k :: 0 <= k < |ds| && ds[k].0 == f))
            && ((exists x :: x in ch.syms && val(Attr(x, Vis)) != 0) ==> f != NONE)
  {
    hide ValueOf;
    FirstVisibleIn(val, ch.syms);
    if ds == [] {
    } else {
      PickIn(g, val, ch, ds[1..]);
      assert forall k :: 0 <= k < |ds| - 1 ==> ds[1..][k] == ds[k + 1];
      assert ds[0].0 == ds[0].0;
    }
  }

  ghost function Selection(s: System, c: nat): (v: int) {
    Value(s, Attr(c, Sel))
  }

  /** In y mode a choice selects the visible symbol the user selected; else something visible, unless none of
      its symbols is; in another mode nothing. */
  lemma SelectionLaws(s: System, g: Graph, c: nat)
    requires Evaluates(s, g) && WellFormed(g) && g.IsChoice(c)
    ensures ModeIn(s, g, c) != 2 ==> Selection(s, c) == NONE
    ensures var u := s.given(Attr(c, UserSel));
            ModeIn(s, g, c) == 2 && u >= 0 && u in g.nodes[c].syms && Visibility(s, u) != 0 ==> Selection(s, c) == u
    ensures ModeIn(s, g, c) == 2 && (exists x :: x in g.nodes[c].syms && Visibility(s, x) != 0) ==>
              Selection(s, c) != NONE
    ensures Selection(s, c) != NONE ==> Selection(s, c) >= 0 && Visibility(s, Selection(s, c)) != 0
  {
    hide WellFormed, Follow, ModeOf, DefaultPick;
    assert Value(s, Attr(c, UserSel)) == s.given(Attr(c, UserSel));
    ValueMeaning(s, g, Attr(c, Sel));
    PickIn(g, Values(s), g.nodes[c], g.nodes[c].picks);
    hide Value;
  }

  /** Default `k` of the choice is the first one whose condition is not n and which is visible. */
  ghost predicate FirstPick(s: System, g: Graph, ds: seq<(nat, Expr)>, k: nat) {
    && k < |ds| && Picks(s, g, ds[k])
    && forall j :: 0 <= j < k ==> !Picks(s, g, ds[j])
  }

  ghost predicate Picks(s: System, g: Graph, d: (nat, Expr)) {
    ExprOf(s, g, d.1) != 0 && Visibility(s, d.0) != 0
  }

  /** Symbol `k` of the choice is the first one that is visible. */
  ghost predicate FirstShown(s: System, ss: seq<nat>, k: nat) {
    k < |ss| && Visibility(s, ss[k]) != 0 && forall j :: 0 <= j < k ==> Visibility(s, ss[j]) == 0
  }

  lemma {:induction false} PickAt(s: System, g: Graph, ch: Node, ds: seq<(nat, Expr)>, k: nat)
    requires ch.Choice?
    ensures FirstPick(s, g, ds, k) ==> DefaultPick(g, Values(s), ch, ds) == ds[k].0
    ensures (forall j :: 0 <= j < |ds| ==> !Picks(s, g, ds[j])) ==>
              DefaultPick(g, Values(s), ch, ds) == FirstVisibleOf(Values(s), ch.syms)
  {
    hide ValueOf, FirstVisibleOf;
    if ds == [] {
    } else {
      assert Picks(s, g, ds[0]) <==> ValueOf(g, Values(s), ds[0].1) != 0 && Values(s)(Attr(ds[0].0, Vis)) != 0;
      hide Picks;
      var rest := ds[1..];
      assert forall j :: 0 <= j < |rest| ==> rest[j] == ds[j + 1];
      if k > 0 && FirstPick(s, g, ds, k) {
        assert FirstPick(s, g, rest, k - 1) by {
          forall j | 0 <= j < k - 1 ensures !Picks(s, g, rest[j]) {
            assert rest[j] == ds[j + 1];
          }
        }
      }
      if forall j :: 0 <= j < |ds| ==> !Picks(s, g, ds[j]) {
        forall j | 0 <= j < |rest| ensures !Picks(s, g, rest[j]) {
          assert rest[j] == ds[j + 1];
        }
      }
      PickAt(s, g, ch, rest, if k == 0 then 0 else k - 1);
    }
  }

  lemma {:induction false} ShownAt(s: System, ss: seq<nat>, k: nat)
    requires FirstShown(s, ss, k)
    ensures FirstVisibleOf(Values(s), ss) == ss[k]
  {
    if k == 0 {
    } else {
      assert Visibility(s, ss[0]) == 0;
      assert FirstShown(s, ss[1..], k - 1) by {
        forall j | 0 <= j < k - 1 ensures Visibility(s, ss[1..][j]) == 0 {
          assert ss[1..][j] == ss[j + 1];
        }
      }
      ShownAt(s, ss[1..], k - 1);
    }
  }

  /** Where the user has selected nothing visible, a choice in y mode selects its first default that is visible
      and whose condition is not n, and if there is none its first visible symbol. */
  lemma SelectionDefault(s: System, g: Graph, c: nat, k: nat)
    requires Evaluates(s, g) && WellFormed(g) && g.IsChoice(c) && ModeIn(s, g, c) == 2
    requires var u := s.given(Attr(c, UserSel)); u >= 0 && u in g.nodes[c].syms ==> Visibility(s, u) == 0
    ensures var ds, ss := g.nodes[c].picks, g.nodes[c].syms;
            && (FirstPick(s, g, ds, k) ==> Selection(s, c) == ds[k].0)
            && ((forall j :: 0 <= j < |ds| ==> !Picks(s, g, ds[j])) && FirstShown(s, ss, k) ==>
                  Selection(s, c) == ss[k])
  {
    hide WellFormed, Follow, ModeOf, DefaultPick, FirstPick, FirstShown, Picks;
    assert Value(s, Attr(c, UserSel)) == s.given(Attr(c, UserSel));
    ValueMeaning(s, g, Attr(c, Sel));
    var ds, ss := g.nodes[c].picks, g.nodes[c].syms;
    PickAt(s, g, g.nodes[c], ds, k);
    if FirstShown(s, ss, k) {
      ShownAt(s, ss, k);
    }
    hide Value;
  }

  /** The symbols of a choice: in y mode exactly the selected one is y and the others are n, in m mode those the
      user set to m or y are m and the others n, and in n mode all are n. */
  lemma MembersExclusive(s: System, g: Graph, i: nat, c: nat)
    requires Evaluates(s, g) && WellFormed(g) && Member(g, i, c)
    ensures ModeIn(s, g, c) == 2 ==> TriValue(s, i) == if Selection(s, c) == i then 2 else 0
    ensures TriValue(s, i) == 1 ==> Visibility(s, i) == 1 && s.given(Attr(i, User)) >= 1
    ensures Visibility(s, i) == 1 && s.given(Attr(i, User)) >= 1 ==> TriValue(s, i) == 1
    ensures ModeIn(s, g, c) != 2 ==> TriValue(s, i) != 2
  {
    hide WellFormed, Follow, ModeOf, VisOf, SelOf;
    assert Value(s, Attr(i, User)) == s.given(Attr(i, User));
    ValueMeaning(s, g, Attr(i, Tri));
    SelectionLaws(s, g, c);
    if ModeIn(s, g, c) == 2 {
      MemberVisible(s, g, i, c);
    }
    ValuesRange(s, g);
    hide Value;
  }

  /** Set, then read: the value of a symbol in no choice is what was set, up to its visibility. */
  lemma SetThenRead(k: Kconfig, i: nat)
    requires k.Valid() && Free(k.g, i) && i in k.user
    requires Visibility(k.Sys(), i) != 0
    ensures TriValue(k.Sys(), i) ==
            Rounded(k.Sys(), k.g, i, Max(ExprOf(k.Sys(), k.g, k.g.nodes[i].revDep),
                                         Min(k.user[i], Visibility(k.Sys(), i))))
  {
    hide WellFormed, TreeOf, Follow, Rounded;
    k.Facts();
    k.SeenFields(i);
    UserDecides(k.Sys(), k.g, i);
  }

  /** Select, then read: a visible symbol that the user selected in a choice in y mode is y, and all the other
      symbols of the choice are n. */
  lemma SelectThenRead(k: Kconfig, i: nat, c: nat, j: nat)
    requires k.Valid() && Member(k.g, i, c) && Member(k.g, j, c) && c in k.selected && k.selected[c] == i
    requires ModeIn(k.Sys(), k.g, c) == 2 && Visibility(k.Sys(), i) != 0
    ensures TriValue(k.Sys(), j) == if j == i then 2 else 0
  {
    assert i in k.g.nodes[c].syms;
    hide WellFormed, TreeOf, Follow;
    k.Facts();
    k.SeenFields(c);
    SelectionLaws(k.Sys(), k.g, c);
    MembersExclusive(k.Sys(), k.g, j, c);
  }

  /** A bool item takes n and y, a tristate one m too, and what is not there nothing. */
  lemma AcceptedValues(g: Graph, i: nat, v: int)
    ensures i !in g.nodes ==> !Accepts(g, i, v)
    ensures i in g.nodes && !g.nodes[i].Constant? && !g.nodes[i].tristate ==> (Accepts(g, i, v) <==> v in {0, 2})
    ensures i in g.nodes && !g.nodes[i].Constant? && g.nodes[i].tristate ==> (Accepts(g, i, v) <==> v in {0, 1, 2})
  {
  }
}
