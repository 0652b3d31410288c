/** Printing and parsing expressions, as tools/kconfiglib.py does, at the level of tokens. */
module KconfigSyntax {
  import opened KExpr
  import opened Numbers

  datatype Token = Sym(i: nat) | TAnd | TOr | TNot | TOpen | TClose | TRel(op: Rel)

  /** `expr_str`. */
  function Print(e: Expr): (ts: seq<Token>)
    decreases e, 0
  {
    match e
    case Item(i) => [Sym(i)]
    case And(l, r) => Inner(l, l.Or?) + [TAnd] + Inner(r, r.Or?)
    case Or(l, r) => Inner(l, l.And?) + [TOr] + Inner(r, r.And?)
    case Not(x) => [TNot] + Inner(x, !x.Item?)
    case Relation(op, a, b) => [Sym(a), TRel(op), Sym(b)]
  }

  /** `_parenthesize`. */
  function Inner(e: Expr, parens: bool): (ts: seq<Token>)
    decreases e, 1
  {
    if parens then [TOpen] + Print(e) + [TClose] else Print(e)
  }

  datatype Parse = Malformed | Parsed(e: Expr, rest: seq<Token>)

  predicate Next(ts: seq<Token>, t: Token) {
    ts != [] && ts[0] == t
  }

  /** expr: and_expr ['||' expr] */
  function ParseExpr(ts: seq<Token>): (p: Parse)
    ensures p.Parsed? ==> |p.rest| < |ts|
    decreases |ts|, 2
  {
    var l := ParseAnd(ts);
    if l.Parsed? && Next(l.rest, TOr) then
      var r := ParseExpr(l.rest[1..]);
      if r.Parsed? then Parsed(Or(l.e, r.e), r.rest) else Malformed
    else l
  }

  /** and_expr: factor ['&&' and_expr] */
  function ParseAnd(ts: seq<Token>): (p: Parse)
    ensures p.Parsed? ==> |p.rest| < |ts|
    decreases |ts|, 1
  {
    var l := ParseFactor(ts);
    if l.Parsed? && Next(l.rest, TAnd) then
      var r := ParseAnd(l.rest[1..]);
      if r.Parsed? then Parsed(And(l.e, r.e), r.rest) else Malformed
    else l
  }

  /** factor: symbol [relation symbol] | '!' factor | '(' expr ')' */
  function ParseFactor(ts: seq<Token>): (p: Parse)
    ensures p.Parsed? ==> |p.rest| < |ts|
    decreases |ts|, 0
  {
    if ts == [] then Malformed
    else
      match ts[0]
      case Sym(a) =>
        if |ts| > 1 && ts[1].TRel? then
          if |ts| > 2 && ts[2].Sym? then Parsed(Relation(ts[1].op, a, ts[2].i), ts[3..]) else Malformed
        else Parsed(Item(a), ts[1..])
      case TNot =>
        var x := ParseFactor(ts[1..]);
        if x.Parsed? then Parsed(Not(x.e), x.rest) else Malformed
      case TOpen =>
        var x := ParseExpr(ts[1..]);
        if x.Parsed? && Next(x.rest, TClose) then Parsed(x.e, x.rest[1..]) else Malformed
      case _ => Malformed
  }

  /** Chains of `&&` and of `||` nested to the right. */
  function AppendAnd(x: Expr, y: Expr): (e: Expr)
    ensures e.And?
  {
    if x.And? then And(x.l, AppendAnd(x.r, y)) else And(x, y)
  }

  function AppendOr(x: Expr, y: Expr): (e: Expr)
    ensures e.Or?
  {
    if x.Or? then Or(x.l, AppendOr(x.r, y)) else Or(x, y)
  }

  function Norm(e: Expr): (n: Expr)
    ensures n.And? <==> e.And?
    ensures n.Or? <==> e.Or?
  {
    match e
    case Item(_) => e
    case Relation(_, _, _) => e
    case Not(x) => Not(Norm(x))
    case And(l, r) => AppendAnd(Norm(l), Norm(r))
    case Or(l, r) => AppendOr(Norm(l), Norm(r))
  }

  lemma {:induction false} AppendAndAssoc(x: Expr, y: Expr, z: Expr)
    ensures AppendAnd(AppendAnd(x, y), z) == AppendAnd(x, AppendAnd(y, z))
  {
    if x.And? {
      AppendAndAssoc(x.r, y, z);
    }
  }

  lemma {:induction false} AppendOrAssoc(x: Expr, y: Expr, z: Expr)
    ensures AppendOr(AppendOr(x, y), z) == AppendOr(x, AppendOr(y, z))
  {
    if x.Or? {
      AppendOrAssoc(x.r, y, z);
    }
  }

  /** What may follow a complete expression. */
  predicate Ends(ts: seq<Token>) {
    ts == [] || ts[0] == TClose
  }

  predicate NoRel(ts: seq<Token>) {
    ts != [] ==> !ts[0].TRel?
  }

  /** A factor is read back up to normal form, whatever comes next but a relation. */
  lemma {:induction false} FactorBack(e: Expr, parens: bool, rest: seq<Token>)
    requires (e.And? || e.Or? ==> parens) && NoRel(rest)
    ensures ParseFactor(Inner(e, parens) + rest) == Parsed(Norm(e), rest)
    decreases e, if parens then 3 else 1
  {
    var ts := Inner(e, parens) + rest;
    if parens {
      assert ts[1..] == Print(e) + ([TClose] + rest);
      PrintBack(e, [TClose] + rest);
    } else {
      match e
      case Item(i) =>
        assert Print(e) == [Sym(i)];
        assert ts[1..] == rest;
      case Relation(op, a, b) =>
        assert Print(e) == [Sym(a), TRel(op), Sym(b)];
        assert ts[3..] == rest;
      case Not(x) =>
        assert Print(e) == [TNot] + Inner(x, !x.Item?);
        assert ts[1..] == Inner(x, !x.Item?) + rest;
        FactorBack(x, !x.Item?, rest);
    }
  }

  lemma {:induction false} AndChain(e: Expr, ts: seq<Token>)
    requires ParseAnd(ts).Parsed?
    ensures ParseAnd(Inner(e, e.Or?) + [TAnd] + ts) == Parsed(AppendAnd(Norm(e), ParseAnd(ts).e), ParseAnd(ts).rest)
    decreases e, 4
  {
    var all := Inner(e, e.Or?) + [TAnd] + ts;
    if e.And? {
      var tail := Inner(e.r, e.r.Or?) + [TAnd] + ts;
      assert all == Inner(e.l, e.l.Or?) + [TAnd] + tail;
      AndChain(e.r, ts);
      AndChain(e.l, tail);
      AppendAndAssoc(Norm(e.l), Norm(e.r), ParseAnd(ts).e);
    } else {
      assert all == Inner(e, e.Or?) + ([TAnd] + ts);
      FactorBack(e, e.Or?, [TAnd] + ts);
      assert ([TAnd] + ts)[1..] == ts;
    }
  }

  lemma {:induction false} AndBack(e: Expr, rest: seq<Token>)
    requires NoRel(rest) && !Next(rest, TAnd)
    ensures ParseAnd(Inner(e, e.Or?) + rest) == Parsed(Norm(e), rest)
    decreases e, 5
  {
    if e.And? {
      var tail := Inner(e.r, e.r.Or?) + rest;
      assert Inner(e, e.Or?) + rest == Inner(e.l, e.l.Or?) + [TAnd] + tail;
      AndBack(e.r, rest);
      AndChain(e.l, tail);
    } else {
      FactorBack(e, e.Or?, rest);
    }
  }

  lemma {:induction false} OrChain(e: Expr, ts: seq<Token>)
    requires ParseExpr(ts).Parsed?
    ensures ParseExpr(Inner(e, e.And?) + [TOr] + ts) == Parsed(AppendOr(Norm(e), ParseExpr(ts).e), ParseExpr(ts).rest)
    decreases e, 4
  {
    var all := Inner(e, e.And?) + [TOr] + ts;
    if e.Or? {
      var tail := Inner(e.r, e.r.And?) + [TOr] + ts;
      assert all == Inner(e.l, e.l.And?) + [TOr] + tail;
      OrChain(e.r, ts);
      OrChain(e.l, tail);
      AppendOrAssoc(Norm(e.l), Norm(e.r), ParseExpr(ts).e);
    } else {
      assert all == Inner(e, e.And?) + ([TOr] + ts);
      FactorBack(e, e.And?, [TOr] + ts);
      assert ([TOr] + ts)[1..] == ts;
    }
  }

  lemma {:induction false} OrBack(e: Expr, rest: seq<Token>)
    requires Ends(rest)
    ensures ParseExpr(Inner(e, e.And?) + rest) == Parsed(Norm(e), rest)
    decreases e, 5
  {
    if e.Or? {
      var tail := Inner(e.r, e.r.And?) + rest;
      assert Inner(e, e.And?) + rest == Inner(e.l, e.l.And?) + [TOr] + tail;
      OrBack(e.r, rest);
      OrChain(e.l, tail);
    } else {
      FactorBack(e, e.And?, rest);
    }
  }

  /** Printing and parsing an expression gives its normal form. */
  lemma {:induction false} PrintBack(e: Expr, rest: seq<Token>)
    requires Ends(rest)
    ensures ParseExpr(Print(e) + rest) == Parsed(Norm(e), rest)
    decreases e, 2
  {
    match e
    case And(l, r) =>
      var tail := Inner(r, r.Or?) + rest;
      assert Print(e) + rest == Inner(l, l.Or?) + [TAnd] + tail;
      AndBack(r, rest);
      AndChain(l, tail);
    case Or(l, r) =>
      var tail := Inner(r, r.And?) + rest;
      assert Print(e) + rest == Inner(l, l.And?) + [TOr] + tail;
      OrBack(r, rest);
      OrChain(l, tail);
    case _ => FactorBack(e, false, rest);
  }

  lemma RoundTrip(e: Expr)
    ensures ParseExpr(Print(e)) == Parsed(Norm(e), [])
  {
    assert Print(e) + [] == Print(e);
    PrintBack(e, []);
  }

  lemma {:induction false} AppendAndValue(x: Expr, y: Expr, env: nat -> int, num: nat -> int)
    ensures ExprValue(AppendAnd(x, y), env, num) == Min(ExprValue(x, env, num), ExprValue(y, env, num))
  {
    if x.And? {
      AppendAndValue(x.r, y, env, num);
    }
  }

  lemma {:induction false} AppendOrValue(x: Expr, y: Expr, env: nat -> int, num: nat -> int)
    ensures ExprValue(AppendOr(x, y), env, num) == Max(ExprValue(x, env, num), ExprValue(y, env, num))
  {
    if x.Or? {
      AppendOrValue(x.r, y, env, num);
    }
  }

  /** Normal forms have the same value under every assignment. */
  lemma {:induction false} NormValue(e: Expr, env: nat -> int, num: nat -> int)
    ensures ExprValue(Norm(e), env, num) == ExprValue(e, env, num)
  {
    match e
    case Item(_) =>
    case Relation(_, _, _) =>
    case Not(x) => NormValue(x, env, num);
    case And(l, r) =>
      NormValue(l, env, num); NormValue(r, env, num);
      AppendAndValue(Norm(l), Norm(r), env, num);
    case Or(l, r) =>
      NormValue(l, env, num); NormValue(r, env, num);
      AppendOrValue(Norm(l), Norm(r), env, num);
  }

  predicate RightNested(e: Expr) {
    match e
    case Item(_) => true
    case Relation(_, _, _) => true
    case Not(x) => RightNested(x)
    case And(l, r) => !l.And? && RightNested(l) && RightNested(r)
    case Or(l, r) => !l.Or? && RightNested(l) && RightNested(r)
  }

  lemma {:induction false} AppendRight(x: Expr, y: Expr)
    requires RightNested(x) && RightNested(y)
    ensures RightNested(AppendAnd(x, y)) && RightNested(AppendOr(x, y))
  {
    if x.And? || x.Or? {
      AppendRight(x.r, y);
    }
  }

  lemma {:induction false} NormRight(e: Expr)
    ensures RightNested(Norm(e))
  {
    match e
    case Item(_) =>
    case Relation(_, _, _) =>
    case Not(x) => NormRight(x);
    case And(l, r) => NormRight(l); NormRight(r); AppendRight(Norm(l), Norm(r));
    case Or(l, r) => NormRight(l); NormRight(r); AppendRight(Norm(l), Norm(r));
  }

  lemma {:induction false} NormKeeps(e: Expr)
    requires RightNested(e)
    ensures Norm(e) == e
  {
    match e
    case Item(_) =>
    case Relation(_, _, _) =>
    case Not(x) => NormKeeps(x);
    case And(l, r) => NormKeeps(l); NormKeeps(r);
    case Or(l, r) => NormKeeps(l); NormKeeps(r);
  }

  /** What is read back has the value of what was printed, and is the same tree exactly when its
      chains are nested to the right. */
  lemma ReadBack(e: Expr)
    ensures ParseExpr(Print(e)).Parsed? && ParseExpr(Print(e)).rest == []
    ensures forall env: nat -> int, num: nat -> int ::
              ExprValue(ParseExpr(Print(e)).e, env, num) == ExprValue(e, env, num)
    ensures ParseExpr(Print(e)).e == e <==> RightNested(e)
  {
    RoundTrip(e);
    forall env: nat -> int, num: nat -> int ensures ExprValue(Norm(e), env, num) == ExprValue(e, env, num) {
      NormValue(e, env, num);
    }
    NormRight(e);
    if RightNested(e) {
      NormKeeps(e);
    }
  }

  /** `_make_and`, where `y` and `n` are the constant symbols. */
  function MakeAnd(y: nat, n: nat, a: Expr, b: Expr): (e: Expr) {
    if a == Item(y) then b
    else if b == Item(y) then a
    else if a == Item(n) || b == Item(n) then Item(n)
    else And(a, b)
  }

  function MakeOr(y: nat, n: nat, a: Expr, b: Expr): (e: Expr) {
    if a == Item(n) then b
    else if b == Item(n) then a
    else if a == Item(y) || b == Item(y) then Item(y)
    else Or(a, b)
  }

  ghost predicate Tristates(env: nat -> int) {
    forall i :: 0 <= env(i) <= 2
  }

  lemma {:induction false} ValueRange(e: Expr, env: nat -> int, num: nat -> int)
    requires Tristates(env)
    ensures 0 <= ExprValue(e, env, num) <= 2
  {
    match e
    case Item(_) =>
    case Relation(_, _, _) =>
    case Not(x) => ValueRange(x, env, num);
    case And(l, r) => ValueRange(l, env, num); ValueRange(r, env, num);
    case Or(l, r) => ValueRange(l, env, num); ValueRange(r, env, num);
  }

  /** The simplifications keep the value, and give one of the operands if and only if one of them is constant. */
  lemma MakeValue(y: nat, n: nat, a: Expr, b: Expr, env: nat -> int, num: nat -> int)
    requires Tristates(env) && env(y) == 2 && env(n) == 0
    ensures ExprValue(MakeAnd(y, n, a, b), env, num) == ExprValue(And(a, b), env, num)
    ensures ExprValue(MakeOr(y, n, a, b), env, num) == ExprValue(Or(a, b), env, num)
    ensures var constant := a == Item(y) || a == Item(n) || b == Item(y) || b == Item(n);
            && (if constant then MakeAnd(y, n, a, b) in {a, b} else MakeAnd(y, n, a, b) == And(a, b))
            && (if constant then MakeOr(y, n, a, b) in {a, b} else MakeOr(y, n, a, b) == Or(a, b))
  {
    ValueRange(a, env, num);
    ValueRange(b, env, num);
  }

  /** The parser at work on its token list. */
  class Parser {
    const tokens: seq<Token>
    var pos: nat

    ghost predicate Valid()
      reads this
    {
      pos <= |tokens|
    }

    constructor (tokens: seq<Token>)
      ensures Valid() && pos == 0 && this.tokens == tokens
    {
      this.tokens, pos := tokens, 0;
    }

    method CheckToken(t: Token) returns (found: bool)
      requires Valid()
      modifies this
      ensures Valid()
      ensures found == Next(tokens[old(pos)..], t)
      ensures tokens[pos..] == if found then tokens[old(pos)..][1..] else tokens[old(pos)..]
    {
      found := pos < |tokens| && tokens[pos] == t;
      if found {
        pos := pos + 1;
      }
    }

    /** The parse so far is `p`: the position is where its rest begins, unless it went wrong. */
    ghost predicate At(p: Parse)
      reads this
    {
      Valid() && (p.Parsed? ==> tokens[pos..] == p.rest)
    }

    method Expr() returns (ok: bool, e: Expr)
      requires Valid()
      modifies this
      ensures At(ParseExpr(tokens[old(pos)..]))
      ensures ok == ParseExpr(tokens[old(pos)..]).Parsed?
      ensures ok ==> e == ParseExpr(tokens[old(pos)..]).e && pos > old(pos)
      decreases |tokens| - pos, 2
    {
      ok, e := AndExpr();
      if ok {
        var more := CheckToken(TOr);
        if more {
          var r;
          ok, r := Expr();
          e := Or(e, r);
        }
      }
    }

    method AndExpr() returns (ok: bool, e: Expr)
      requires Valid()
      modifies this
      ensures At(ParseAnd(tokens[old(pos)..]))
      ensures ok == ParseAnd(tokens[old(pos)..]).Parsed?
      ensures ok ==> e == ParseAnd(tokens[old(pos)..]).e && pos > old(pos)
      decreases |tokens| - pos, 1
    {
      ok, e := Factor();
      if ok {
        var more := CheckToken(TAnd);
        if more {
          var r;
          ok, r := AndExpr();
          e := And(e, r);
        }
      }
    }

    method Factor() returns (ok: bool, e: Expr)
      requires Valid()
      modifies this
      ensures At(ParseFactor(tokens[old(pos)..]))
      ensures ok == ParseFactor(tokens[old(pos)..]).Parsed?
      ensures ok ==> e == ParseFactor(tokens[old(pos)..]).e && pos > old(pos)
      decreases |tokens| - pos, 0
    {
      ghost var ts := tokens[pos..];
      if pos == |tokens| {
        return false, Item(0);
      }
      var token := tokens[pos];
      pos := pos + 1;
      assert tokens[pos..] == ts[1..];
      match token
      case Sym(a) =>
        if pos < |tokens| && tokens[pos].TRel? {
          var op := tokens[pos].op;
          if pos + 1 < |tokens| && tokens[pos + 1].Sym? {
            ok, e := true, Relation(op, a, tokens[pos + 1].i);
            pos := pos + 2;
            assert tokens[pos..] == ts[3..];
          } else {
            ok, e := false, Item(0);
          }
        } else {
          ok, e := true, Item(a);
        }
      case TNot =>
        ok, e := Factor();
        e := Not(e);
      case TOpen =>
        ok, e := Expr();
        if ok {
          ok := CheckToken(TClose);
        }
      case _ => ok, e := false, Item(0);
    }
  }
}
