/** Dependency expressions of the configuration language (kconf/expr.h, kconf/expr.c) and the
    three-valued meaning that every rewrite in this project is proved against.

    A symbol stands for a `struct symbol`: pointer equality in the source is equality of
    `Symbol` values here. The numbers 0, 1, 2 are the tristate values n, m, y.
 */
module KconfigExpr {

  type Tri = x: int | 0 <= x <= 2

  const NO: Tri := 0
  const MOD: Tri := 1
  const YES: Tri := 2

  datatype Option<+T> = None | Some(value: T)

  datatype SymType = Unknown | Boolean | Tristate | IntType | HexType | StringType | Other

  /** The name of a literal; sym_lookup gives the literals n, m and y the built-in symbols
      (kconf/symbol.c:861-872). */
  type LiteralName = s: string | s != "n" && s != "m" && s != "y" witness ""

  /** `symbol_yes`, `symbol_mod`, `symbol_no`, the symbols of the configuration, and the other literal
      constants, one symbol for each name. Constants have no declared type (kconf/symbol.c:14). */
  datatype Symbol = Yes | Mod | No | Config(id: nat, typ: SymType) | Literal(name: LiteralName) {
    function Type(): SymType {
      if Config? then typ else Unknown
    }
    predicate Const() { !Config? }
    predicate Builtin() { !Config? && !Literal? }
    predicate Truth() {
      Type() == Boolean || Type() == Tristate
    }
  }

  datatype CmpOp = Eq | Neq | Lth | Leq | Gth | Geq

  /** E_LIST, E_RANGE and E_NONE never occur in a dependency, so they have no constructor. */
  datatype Expr =
    | Sym(sym: Symbol)
    | Not(arg: Expr)
    | And(left: Expr, right: Expr)
    | Or(left: Expr, right: Expr)
    | Cmp(op: CmpOp, lhs: Symbol, rhs: Symbol)

  /** What the symbols currently hold: `curr.tri`, `curr.val`, the symbol MODULES, and the library
      conversions strtoll/strtoull, which give the number a whole string denotes, if any. */
  datatype Env = Env(tri: Symbol -> Tri, val: Symbol -> string, modules: Symbol,
                     strto: (string, SymType) -> Option<int>)

  function Min(a: Tri, b: Tri): Tri { if a < b then a else b }
  function Max(a: Tri, b: Tri): Tri { if a > b then a else b }

  function Curr(s: Symbol, env: Env): Tri {
    match s
    case Yes => YES
    case Mod => MOD
    case No => NO
    case Config(_, _) => env.tri(s)
    case Literal(_) => NO
  }

  // ----- comparisons (expr_calc_value) -----

  function TriName(t: Tri): string {
    if t == NO then "n" else if t == MOD then "m" else "y"
  }

  /** sym_get_string_value: m reads as "n" while MODULES is n. */
  function StringValue(s: Symbol, env: Env): string {
    match s
    case Yes => "y"
    case Mod => "m"
    case No => "n"
    case Literal(name) => name
    case Config(_, _) =>
      if s.Truth() then
        if env.tri(s) == MOD && Curr(env.modules, env) == NO then "n" else TriName(env.tri(s))
      else env.val(s)
  }

  function StrCmp(a: string, b: string): int {
    if a == [] then if b == [] then 0 else -1
    else if b == [] then 1
    else if a[0] < b[0] then -1
    else if a[0] > b[0] then 1
    else StrCmp(a[1..], b[1..])
  }

  datatype Parsed = Text | Signed(v: int) | Unsigned(v: int) | Invalid

  predicate IsXDigit(c: char) {
    '0' <= c <= '9' || 'a' <= c <= 'f' || 'A' <= c <= 'F'
  }

  /** expr_parse_string: a number counts only if it is the whole string and ends in a hex digit. */
  function ParseString(s: string, t: SymType, strto: (string, SymType) -> Option<int>): Parsed {
    match t
    case Boolean => Signed(if s == "n" then 0 else if s == "m" then 1 else if s == "y" then 2 else -1)
    case Tristate => Signed(if s == "n" then 0 else if s == "m" then 1 else if s == "y" then 2 else -1)
    case Other => Invalid
    case _ =>
      if s == "" || !IsXDigit(s[|s| - 1]) then Text
      else match strto(s, t)
           case None => Text
           case Some(n) => if t == HexType then Unsigned(n) else Signed(n)
  }

  function Sign(d: int): int { if d < 0 then -1 else if d > 0 then 1 else 0 }

  const TWO64: int := 0x1_0000_0000_0000_0000

  datatype Relation = Relation(res: int, ordered: bool)

  /** The number `res` that expr_calc_value computes, and whether <, <=, >, >= are defined. */
  function Relate(l: Symbol, r: Symbol, env: Env): Relation {
    var s1, s2 := StringValue(l, env), StringValue(r, env);
    var textual := l.Type() == StringType && r.Type() == StringType;
    var k1 := if textual then Text else ParseString(s1, l.Type(), env.strto);
    var k2 := if textual then Text else ParseString(s2, r.Type(), env.strto);
    if k1.Text? || k2.Text? then Relation(StrCmp(s1, s2), true)
    else if k1.Invalid? || k2.Invalid? then Relation(StrCmp(s1, s2), false)
    else if k1.Unsigned? || k2.Unsigned? then Relation(Sign(k1.v % TWO64 - k2.v % TWO64), true)
    else Relation(Sign(k1.v - k2.v), true)
  }

  predicate Holds(op: CmpOp, rel: Relation) {
    match op
    case Eq => rel.res == 0
    case Neq => rel.res != 0
    case Lth => rel.ordered && rel.res < 0
    case Leq => rel.ordered && rel.res <= 0
    case Gth => rel.ordered && rel.res > 0
    case Geq => rel.ordered && rel.res >= 0
  }

  /** expr_calc_value on an expression whose symbols are already up to date. */
  function Value(e: Expr, env: Env): Tri {
    match e
    case Sym(s) => Curr(s, env)
    case Not(a) => 2 - Value(a, env)
    case And(l, r) => Min(Value(l, env), Value(r, env))
    case Or(l, r) => Max(Value(l, env), Value(r, env))
    case Cmp(op, l, r) => if Holds(op, Relate(l, r, env)) then YES else NO
  }

  /** A missing expression counts as y. */
  function ValueOpt(e: Option<Expr>, env: Env): Tri {
    if e.None? then YES else Value(e.value, env)
  }

  /** What sym_calc_value guarantees of the values it stores: a bool is never m, and nothing is m
      while MODULES is n. */
  ghost predicate Consistent(env: Env) {
    forall s: Symbol :: s.Truth() && Curr(s, env) == MOD ==>
      s.Type() == Tristate && Curr(env.modules, env) != NO
  }

  // ----- facts about comparisons -----

  lemma StrCmpZero(a: string, b: string)
    ensures StrCmp(a, b) == 0 <==> a == b
  {
    if a != [] && b != [] && a[0] == b[0] {
      StrCmpZero(a[1..], b[1..]);
      assert a == [a[0]] + a[1..] && b == [b[0]] + b[1..];
    }
  }

  /** Comparing a bool or tristate symbol with y, m or n compares the two tristate values, although
      the source compares strings there (the constants are untyped, and none is a number). */
  lemma CompareWithTri(s: Symbol, c: Symbol, env: Env)
    requires Consistent(env) && s.Truth() && c.Builtin()
    ensures Relate(s, c, env).res == 0 <==> Curr(s, env) == Curr(c, env)
    ensures Relate(s, c, env).ordered
  {
    StrCmpZero(StringValue(s, env), StringValue(c, env));
  }

  /** A literal that reads as the number of n, m or y. */
  predicate Numeral(name: string, t: Tri, strto: (string, SymType) -> Option<int>) {
    ParseString(name, Unknown, strto) == Signed(t)
  }

  /** A bool or tristate symbol equals no other literals than numerals: those of its value. */
  lemma CompareWithLiteral(s: Symbol, c: Symbol, env: Env)
    requires Consistent(env) && s.Truth() && c.Literal?
    ensures Relate(s, c, env).res == 0 <==> Numeral(c.name, Curr(s, env), env.strto)
  {
    StrCmpZero(StringValue(s, env), c.name);
  }

  // ----- measures and construction -----

  function Size(e: Expr): nat
    ensures Size(e) >= 1
  {
    match e
    case Sym(_) => 1
    case Cmp(_, _, _) => 1
    case Not(a) => 1 + Size(a)
    case And(l, r) => 1 + Size(l) + Size(r)
    case Or(l, r) => 1 + Size(l) + Size(r)
  }

  function SymLiterals(s: Symbol): set<string> { if s.Literal? then {s.name} else {} }

  /** The literals of an expression. */
  function Literals(e: Expr): set<string> {
    match e
    case Sym(s) => SymLiterals(s)
    case Not(a) => Literals(a)
    case And(l, r) => Literals(l) + Literals(r)
    case Or(l, r) => Literals(l) + Literals(r)
    case Cmp(_, l, r) => SymLiterals(l) + SymLiterals(r)
  }

  function LiteralsOpt(e: Option<Expr>): set<string> { if e.None? then {} else Literals(e.value) }

  /** expr_alloc_and on possibly missing operands. */
  function AllocAnd(e1: Option<Expr>, e2: Option<Expr>): Option<Expr> {
    if e1.None? then e2
    else if e2.None? then e1
    else Some(And(e1.value, e2.value))
  }

  /** NOT stands over symbols only, so no comparison or connective sits under a NOT. */
  predicate NotOverSymbols(e: Expr) {
    match e
    case Not(a) => a.Sym?
    case And(l, r) => NotOverSymbols(l) && NotOverSymbols(r)
    case Or(l, r) => NotOverSymbols(l) && NotOverSymbols(r)
    case _ => true
  }
}
