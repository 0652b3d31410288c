/** The expression language of tools/kconfiglib.py over items numbered by `nat`. */
module KExpr {
  import opened Numbers

  datatype Rel = Equal | Unequal | Less | LessEqual | Greater | GreaterEqual

  datatype Expr =
    | Item(i: nat)
    | And(l: Expr, r: Expr)
    | Or(l: Expr, r: Expr)
    | Not(e: Expr)
    | Relation(op: Rel, a: nat, b: nat)

  /** `_make_depend_on`: the items an expression mentions. */
  function Items(e: Expr): (s: set<nat>) {
    match e
    case Item(i) => {i}
    case And(l, r) => Items(l) + Items(r)
    case Or(l, r) => Items(l) + Items(r)
    case Not(x) => Items(x)
    case Relation(_, a, b) => {a, b}
  }

  predicate Holds(op: Rel, x: int, y: int) {
    match op
    case Equal => x == y
    case Unequal => x != y
    case Less => x < y
    case LessEqual => x <= y
    case Greater => x > y
    case GreaterEqual => x >= y
  }

  /** The tristate meaning: n, m and y are 0, 1 and 2; `&&` is the minimum, `||` the maximum.
      Relations compare their operands as numbers. */
  function ExprValue(e: Expr, env: nat -> int, num: nat -> int): (v: int) {
    match e
    case Item(i) => env(i)
    case And(l, r) => Min(ExprValue(l, env, num), ExprValue(r, env, num))
    case Or(l, r) => Max(ExprValue(l, env, num), ExprValue(r, env, num))
    case Not(x) => 2 - ExprValue(x, env, num)
    case Relation(op, a, b) => if Holds(op, num(a), num(b)) then 2 else 0
  }

  /** `&&` is at most both operands and one of them, `||` is its dual under `!`, and `!` undoes itself. */
  lemma ExprLaws(l: Expr, r: Expr, env: nat -> int, num: nat -> int)
    ensures var a, b, c := ExprValue(l, env, num), ExprValue(r, env, num), ExprValue(And(l, r), env, num);
            c <= a && c <= b && (c == a || c == b)
    ensures ExprValue(Not(And(l, r)), env, num) == ExprValue(Or(Not(l), Not(r)), env, num)
    ensures ExprValue(Not(Not(l)), env, num) == ExprValue(l, env, num)
  {
  }

  /** Each relation is y exactly where its complement is n, and the order is that of the numbers. */
  lemma RelationLaws(a: nat, b: nat, env: nat -> int, num: nat -> int)
    ensures ExprValue(Relation(Equal, a, b), env, num) == 2 <==> num(a) == num(b)
    ensures ExprValue(Relation(Less, a, b), env, num) == 2 <==> num(a) < num(b)
    ensures ExprValue(Relation(Unequal, a, b), env, num) == 2 - ExprValue(Relation(Equal, a, b), env, num)
    ensures ExprValue(Relation(GreaterEqual, a, b), env, num) == 2 - ExprValue(Relation(Less, a, b), env, num)
    ensures ExprValue(Relation(Greater, a, b), env, num) == ExprValue(Relation(Less, b, a), env, num)
    ensures ExprValue(Relation(LessEqual, a, b), env, num) == ExprValue(Relation(GreaterEqual, b, a), env, num)
  {
  }
}
