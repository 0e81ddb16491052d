/** Duplicate joining in place (kconf/expr.c:420-678).

    `expr_eliminate_dups1(type, &e, &e)` walks one tree against itself and overwrites leaves
    through two pointers into that same tree. Here the tree is a mutable field and a
    `struct expr **` is a path to the slot it points at, so two slots alias exactly when their
    paths are equal.
 */
module KconfigDups {
  import opened KconfigExpr
  import opened KconfigEquality

  // ----- expr_join_or, expr_join_and -----

  predicate Joinable(e: Expr) {
    e.Sym? || e.Not? || (e.Cmp? && e.op in {Eq, Neq})
  }

  /** The symbol a joinable operand is about; the second operand may negate only a bare symbol. */
  function Subject(e: Expr, second: bool): Option<Symbol>
    requires Joinable(e)
  {
    match e
    case Sym(s) => Some(s)
    case Cmp(_, l, _) => Some(l)
    case Not(a) =>
      if a.Sym? then Some(a.sym)
      else if !second && a.Cmp? && a.op in {Eq, Neq} then Some(a.lhs)
      else None
  }

  /** Both orders of the same pair of tests. */
  predicate Pair(e1: Expr, e2: Expr, a: Expr, b: Expr) {
    (e1 == a && e2 == b) || (e1 == b && e2 == a)
  }

  function JoinOr(e1: Expr, e2: Expr): Option<Expr> {
    if ExprEq(e1, e2) then Some(e1)
    else if !Joinable(e1) || !Joinable(e2) then None
    else if Subject(e1, false).None? || Subject(e1, false) != Subject(e2, true) then None
    else
      var s := Subject(e1, false).value;
      if s.Type() == Tristate then
        if Pair(e1, e2, Cmp(Eq, s, Yes), Cmp(Eq, s, Mod)) then Some(Cmp(Neq, s, No))
        else if Pair(e1, e2, Cmp(Eq, s, Yes), Cmp(Eq, s, No)) then Some(Cmp(Neq, s, Mod))
        else if Pair(e1, e2, Cmp(Eq, s, Mod), Cmp(Eq, s, No)) then Some(Cmp(Neq, s, Yes))
        else None
      else if s.Type() == Boolean && Pair(e1, e2, Not(Sym(s)), Sym(s)) then Some(Sym(Yes))
      else None
  }

  function JoinAnd(e1: Expr, e2: Expr): Option<Expr> {
    if ExprEq(e1, e2) then Some(e1)
    else if !Joinable(e1) || !Joinable(e2) then None
    else if Subject(e1, false).None? || Subject(e1, false) != Subject(e2, true) then None
    else JoinTests(Subject(e1, false).value, e1, e2)
  }

  /** The conjunction of two tests of one symbol. */
  function JoinTests(s: Symbol, e1: Expr, e2: Expr): Option<Expr> {
    if !s.Truth() then None
    else if Pair(e1, e2, Sym(s), Cmp(Eq, s, Yes)) then Some(Cmp(Eq, s, Yes))
    else if Pair(e1, e2, Sym(s), Cmp(Neq, s, No)) then Some(Sym(s))
    else if Pair(e1, e2, Sym(s), Cmp(Neq, s, Mod)) then Some(Cmp(Eq, s, Yes))
    else if s.Type() != Tristate || !e1.Cmp? || !e2.Cmp? then None
    else if e1.op == Eq && e2.op == Neq then
      if !e1.rhs.Const() || !e2.rhs.Const() then None
      else Some(if e1.rhs != e2.rhs then Cmp(Eq, s, e1.rhs) else Sym(No))
    else if e1.op == Neq && e2.op == Eq then
      if !e1.rhs.Const() || !e2.rhs.Const() then None
      else Some(if e1.rhs != e2.rhs then Cmp(Eq, s, e2.rhs) else Sym(No))
    else if Pair(e1, e2, Cmp(Neq, s, Yes), Cmp(Neq, s, No)) then Some(Cmp(Eq, s, Mod))
    else if Pair(e1, e2, Cmp(Neq, s, Yes), Cmp(Neq, s, Mod)) then Some(Cmp(Eq, s, No))
    else if Pair(e1, e2, Cmp(Neq, s, Mod), Cmp(Neq, s, No)) then Some(Cmp(Eq, s, Yes))
    else None
  }

  function Merge(op: Junction, e1: Expr, e2: Expr): Option<Expr> {
    if op.Conj? then JoinAnd(e1, e2) else JoinOr(e1, e2)
  }

  /** None of the literals reads as the number of n, m or y, so that a tristate symbol never equals two
      different constants at once. */
  predicate Apart(names: set<string>, strto: (string, SymType) -> Option<int>) {
    forall n :: n in names ==> NoNumeral(n, strto)
  }

  predicate NoNumeral(name: string, strto: (string, SymType) -> Option<int>) {
    !Numeral(name, NO, strto) && !Numeral(name, MOD, strto) && !Numeral(name, YES, strto)
  }

  ghost predicate Sane(names: set<string>, env: Env) {
    Consistent(env) && Apart(names, env.strto)
  }

  /** Tests of one bool or tristate symbol against y, m, n, in terms of its tristate value. */
  lemma TestValues(s: Symbol, env: Env)
    requires Consistent(env) && s.Truth()
    ensures Value(Cmp(Eq, s, Yes), env) == (if Curr(s, env) == YES then YES else NO)
    ensures Value(Cmp(Eq, s, Mod), env) == (if Curr(s, env) == MOD then YES else NO)
    ensures Value(Cmp(Eq, s, No), env) == (if Curr(s, env) == NO then YES else NO)
    ensures Value(Cmp(Neq, s, Yes), env) == (if Curr(s, env) == YES then NO else YES)
    ensures Value(Cmp(Neq, s, Mod), env) == (if Curr(s, env) == MOD then NO else YES)
    ensures Value(Cmp(Neq, s, No), env) == (if Curr(s, env) == NO then NO else YES)
  {
    CompareWithTri(s, Yes, env);
    CompareWithTri(s, Mod, env);
    CompareWithTri(s, No, env);
  }

  lemma {:induction false} JoinOrSound(e1: Expr, e2: Expr, env: Env)
    requires Consistent(env) && JoinOr(e1, e2).Some?
    ensures Value(JoinOr(e1, e2).value, env) == Max(Value(e1, env), Value(e2, env))
  {
    if ExprEq(e1, e2) {
      ExprEqSound(e1, e2);
    } else {
      TestValues(Subject(e1, false).value, env);
    }
  }

  /** (a = b) && (a != c) for constants: this rule alone needs the constants to be apart. */
  lemma ConstantRule(a: Symbol, b: Symbol, c: Symbol, env: Env)
    ensures Min(Value(Cmp(Eq, a, b), env), Value(Cmp(Neq, a, b), env)) == NO
    ensures Value(Cmp(Eq, a, b), env) == Min(Value(Cmp(Eq, a, b), env), Value(Cmp(Neq, a, c), env))
            <==> !(Relate(a, b, env).res == 0 && Relate(a, c, env).res == 0)
  {}

  /** Different constants, the literals among them being no numerals, are never both equal to a symbol. */
  lemma ConstantsApart(a: Symbol, b: Symbol, c: Symbol, env: Env)
    requires Sane(SymLiterals(b) + SymLiterals(c), env) && a.Truth() && b.Const() && c.Const() && b != c
    ensures !(Relate(a, b, env).res == 0 && Relate(a, c, env).res == 0)
  {
    hide Relate, Numeral, Consistent;
    ConstantTest(a, b, env);
    ConstantTest(a, c, env);
    assert b.Literal? ==> b.name in SymLiterals(b) + SymLiterals(c);
    assert c.Literal? ==> c.name in SymLiterals(b) + SymLiterals(c);
  }

  lemma ConstantTest(a: Symbol, b: Symbol, env: Env)
    requires Consistent(env) && a.Truth() && b.Const()
    ensures b.Builtin() ==> (Relate(a, b, env).res == 0 <==> Curr(a, env) == Curr(b, env))
    ensures b.Literal? && NoNumeral(b.name, env.strto) ==> Relate(a, b, env).res != 0
  {
    if b.Builtin() {
      CompareWithTri(a, b, env);
    } else {
      CompareWithLiteral(a, b, env);
      assert Curr(a, env) == NO || Curr(a, env) == MOD || Curr(a, env) == YES;
    }
  }

  lemma {:induction false} SymbolTestsSound(s: Symbol, e1: Expr, e2: Expr, env: Env)
    requires Consistent(env) && JoinTests(s, e1, e2).Some?
    requires !(e1.Cmp? && e2.Cmp? && e1.op != e2.op)
    ensures Value(JoinTests(s, e1, e2).value, env) == Min(Value(e1, env), Value(e2, env))
  {
    TestValues(s, env);
    hide Relate, Holds, Consistent, Curr;
    if e1.Cmp? {
      assert e1.rhs.Builtin() && e1.op in {Eq, Neq};
    } else {
      assert e1 == Sym(s) && e2.Cmp?;
    }
  }

  lemma {:induction false} JoinTestsSound(s: Symbol, e1: Expr, e2: Expr, env: Env)
    requires Sane(Literals(e1) + Literals(e2), env) && JoinTests(s, e1, e2).Some?
    requires e1.Cmp? ==> e1.lhs == s
    requires e2.Cmp? ==> e2.lhs == s
    ensures Value(JoinTests(s, e1, e2).value, env) == Min(Value(e1, env), Value(e2, env))
  {
    if e1.Cmp? && e2.Cmp? && e1.op != e2.op {
      OppositeTestsSound(s, e1, e2, env);
    } else {
      SymbolTestsSound(s, e1, e2, env);
    }
  }

  /** The rule for (s = b) && (s != c) keeps the value. */
  lemma ConstantRuleSound(s: Symbol, b: Symbol, c: Symbol, env: Env)
    requires Sane(SymLiterals(b) + SymLiterals(c), env) && s.Truth() && b.Const() && c.Const()
    ensures Value(if b != c then Cmp(Eq, s, b) else Sym(No), env) ==
            Min(Value(Cmp(Eq, s, b), env), Value(Cmp(Neq, s, c), env))
  {
    if b != c { ConstantsApart(s, b, c, env); }
    hide Relate, Sane, SymLiterals;
    ConstantRule(s, b, c, env);
  }

  lemma OppositeTestsSound(s: Symbol, e1: Expr, e2: Expr, env: Env)
    requires Sane(Literals(e1) + Literals(e2), env) && JoinTests(s, e1, e2).Some?
    requires e1.Cmp? && e2.Cmp? && e1.op != e2.op && e1.lhs == e2.lhs == s
    ensures Value(JoinTests(s, e1, e2).value, env) == Min(Value(e1, env), Value(e2, env))
  {
    var b, c := e1.rhs, e2.rhs;
    assert Sane(SymLiterals(b) + SymLiterals(c), env) && Sane(SymLiterals(c) + SymLiterals(b), env);
    hide Value, Sane, Literals, SymLiterals;
    assert JoinTests(s, e1, e2) == Some(if e1.rhs == e2.rhs then Sym(No) else if e1.op == Eq then e1 else e2);
    hide JoinTests;
    if e1.op == Eq { ConstantRuleSound(s, b, c, env); } else { ConstantRuleSound(s, c, b, env); }
  }

  lemma {:induction false} JoinAndSound(e1: Expr, e2: Expr, env: Env)
    requires Sane(Literals(e1) + Literals(e2), env) && JoinAnd(e1, e2).Some?
    ensures Value(JoinAnd(e1, e2).value, env) == Min(Value(e1, env), Value(e2, env))
  {
    if ExprEq(e1, e2) {
      ExprEqSound(e1, e2);
    } else {
      JoinTestsSound(Subject(e1, false).value, e1, e2, env);
    }
  }

  /** Every join of expressions with these literals keeps the value in every consistent environment. */
  ghost predicate JoinsPreserveValue(names: set<LiteralName>, strto: (string, SymType) -> Option<int>) {
    forall e1: Expr, e2: Expr, env: Env ::
      JoinAnd(e1, e2).Some? && Literals(e1) + Literals(e2) <= names && Consistent(env) && env.strto == strto ==>
        Value(JoinAnd(e1, e2).value, env) == Min(Value(e1, env), Value(e2, env))
  }

  /** They do exactly when none of the literals is a numeral of n, m or y. */
  lemma JoinsPreserveValueExactly(names: set<LiteralName>, strto: (string, SymType) -> Option<int>)
    ensures JoinsPreserveValue(names, strto) <==> Apart(names, strto)
  {
    hide JoinAnd, Relate, Value, NoNumeral, Consistent, Literals;
    if Apart(names, strto) {
      forall e1: Expr, e2: Expr, env: Env
        | JoinAnd(e1, e2).Some? && Literals(e1) + Literals(e2) <= names && Consistent(env) && env.strto == strto
        ensures Value(JoinAnd(e1, e2).value, env) == Min(Value(e1, env), Value(e2, env))
      {
        JoinAndSound(e1, e2, env);
      }
    } else {
      var n :| n in names && !NoNumeral(n, strto);
      var e1, e2, env := NumeralFails(n, strto);
    }
  }

  /** A numeral fails: (a = "2") && (a != y) is n where a is y, but is rewritten to a = "2". */
  lemma NumeralFails(name: LiteralName, strto: (string, SymType) -> Option<int>) returns (e1: Expr, e2: Expr, env: Env)
    requires !NoNumeral(name, strto)
    ensures JoinAnd(e1, e2).Some? && Literals(e1) + Literals(e2) == {name} && Consistent(env) && env.strto == strto
    ensures Value(JoinAnd(e1, e2).value, env) == YES && Min(Value(e1, env), Value(e2, env)) == NO
  {
    var a, b := Config(0, Tristate), Literal(name);
    var t: Tri := if Numeral(name, NO, strto) then NO else if Numeral(name, MOD, strto) then MOD else YES;
    var c := if t == NO then No else if t == MOD then Mod else Yes;
    env := Env((s: Symbol) => if s == a then t else NO, (s: Symbol) => "", a, strto);
    e1, e2 := Cmp(Eq, a, b), Cmp(Neq, a, c);
    assert JoinAnd(e1, e2) == Some(e1);
    CompareWithLiteral(a, b, env);
    CompareWithTri(a, c, env);
  }

  /** Words are no numerals, whatever strtoll makes of them, and no literals need none. */
  lemma WordsAreApart(names: set<string>, strto: (string, SymType) -> Option<int>)
    requires forall n :: n in names ==> n == "" || !IsXDigit(n[|n| - 1])
    ensures Apart(names, strto) && Apart({}, strto)
  {}

  /** There are such environments: MODULES and all tristate symbols m, say. */
  lemma SaneEnvironment(names: set<string>, strto: (string, SymType) -> Option<int>) returns (env: Env)
    requires Apart(names, strto)
    ensures Sane(names, env) && env.strto == strto
    ensures forall s: Symbol :: s.Type() == Tristate ==> Curr(s, env) == MOD
  {
    var modules := Config(0, Tristate);
    env := Env((s: Symbol) => if s.Type() == Tristate then MOD else NO, (s: Symbol) => "", modules, strto);
  }

  /** Two spellings of one number: A = "2" && A != "0x2" is n, but is rewritten to A = "2". */
  lemma TwoSpellings(a: Symbol, two: Symbol, hex: Symbol, env: Env)
    requires a == Config(0, Tristate) && two == Literal("2") && hex == Literal("0x2")
    requires env == Env(s => YES, s => "", a, (t, k) => Some(2))
    ensures Consistent(env) && Relate(a, two, env).res == 0 && Relate(a, hex, env).res == 0
    ensures JoinAnd(Cmp(Eq, a, two), Cmp(Neq, a, hex)) == Some(Cmp(Eq, a, two))
    ensures Value(Cmp(Eq, a, two), env) == YES
    ensures Value(And(Cmp(Eq, a, two), Cmp(Neq, a, hex)), env) == NO
  {
    assert StringValue(a, env) == "y" && StringValue(two, env) == "2" && StringValue(hex, env) == "0x2";
    ConstantRule(a, two, hex, env);
  }

  lemma {:induction false} MergeSound(op: Junction, e1: Expr, e2: Expr, env: Env)
    requires Sane(Literals(e1) + Literals(e2), env) && Merge(op, e1, e2).Some?
    ensures Value(Merge(op, e1, e2).value, env) == Apply(op, Value(e1, env), Value(e2, env))
  {
    if op.Conj? { JoinAndSound(e1, e2, env); } else { JoinOrSound(e1, e2, env); }
  }

  lemma MergeShape(op: Junction, e1: Expr, e2: Expr)
    requires Merge(op, e1, e2).Some? && !IsOp(op, e1)
    ensures Size(Merge(op, e1, e2).value) <= Size(e1)
    ensures !IsOp(op, Merge(op, e1, e2).value)
    ensures NotOverSymbols(e1) ==> NotOverSymbols(Merge(op, e1, e2).value)
  {}

  lemma JoinTestsLiterals(s: Symbol, e1: Expr, e2: Expr)
    requires JoinTests(s, e1, e2).Some? && Subject(e1, false) == Some(s) && Joinable(e1) && Joinable(e2)
    requires SymLiterals(s) == {}
    ensures Literals(JoinTests(s, e1, e2).value) <= Literals(e1) + Literals(e2)
  {}

  /** A join has no new literals. */
  lemma MergeLiterals(op: Junction, e1: Expr, e2: Expr)
    requires Merge(op, e1, e2).Some?
    ensures Literals(Merge(op, e1, e2).value) <= Literals(e1) + Literals(e2)
  {
    hide JoinTests;
    if op.Conj? && !ExprEq(e1, e2) {
      var s := Subject(e1, false).value;
      TestedSymbol(s, e1, e2);
      JoinTestsLiterals(s, e1, e2);
    }
  }

  lemma TestedSymbol(s: Symbol, e1: Expr, e2: Expr)
    requires JoinTests(s, e1, e2).Some?
    ensures SymLiterals(s) == {}
  {}

  // ----- slots -----

  /** Which operand to follow at each connective: false left, true right. */
  type Path = seq<bool>

  function Child(e: Expr, d: bool): Expr
    requires IsJunction(e)
  {
    if d then e.right else e.left
  }

  predicate ValidPath(e: Expr, p: Path) {
    p == [] || (IsJunction(e) && ValidPath(Child(e, p[0]), p[1..]))
  }

  function Get(e: Expr, p: Path): Expr
    requires ValidPath(e, p)
  {
    if p == [] then e else Get(Child(e, p[0]), p[1..])
  }

  function Put(e: Expr, p: Path, x: Expr): Expr
    requires ValidPath(e, p)
  {
    if p == [] then x
    else if p[0] then Join(OpOf(e), e.left, Put(e.right, p[1..], x))
    else Join(OpOf(e), Put(e.left, p[1..], x), e.right)
  }

  lemma {:induction false} GetPut(e: Expr, p: Path, x: Expr, y: Expr)
    requires ValidPath(e, p)
    ensures ValidPath(Put(e, p, x), p) && Get(Put(e, p, x), p) == x
    ensures Put(Put(e, p, x), p, y) == Put(e, p, y)
    ensures Put(e, p, Get(e, p)) == e
  {
    if p != [] { GetPut(Child(e, p[0]), p[1..], x, y); }
  }

  lemma {:induction false} Nested(e: Expr, p: Path, q: Path, x: Expr)
    requires ValidPath(e, p) && ValidPath(Get(e, p), q)
    ensures ValidPath(e, p + q) && Get(e, p + q) == Get(Get(e, p), q)
    ensures Put(e, p + q, x) == Put(e, p, Put(Get(e, p), q, x))
  {
    if p == [] {
      assert p + q == q;
    } else {
      assert (p + q)[1..] == p[1..] + q;
      Nested(Child(e, p[0]), p[1..], q, x);
    }
  }

  /** Every node on the way to `q` is an `op` node: `q` is a position of the level rooted here. */
  predicate Spine(op: Junction, e: Expr, q: Path) {
    q == [] || (IsOp(op, e) && Spine(op, Child(e, q[0]), q[1..]))
  }

  /** An operand of the level. */
  predicate Operand(op: Junction, e: Expr, q: Path) {
    if q == [] then !IsOp(op, e) else IsOp(op, e) && Operand(op, Child(e, q[0]), q[1..])
  }

  lemma SpineValid(op: Junction, e: Expr, q: Path)
    requires Spine(op, e, q)
    ensures ValidPath(e, q)
  {}

  lemma {:induction false} SpineExtend(op: Junction, e: Expr, q: Path, d: bool)
    requires Spine(op, e, q) && ValidPath(e, q) && IsOp(op, Get(e, q))
    ensures Spine(op, e, q + [d]) && ValidPath(e, q + [d])
    ensures Get(e, q + [d]) == Child(Get(e, q), d)
  {
    if q != [] {
      assert (q + [d])[1..] == q[1..] + [d];
      SpineExtend(op, Child(e, q[0]), q[1..], d);
    }
  }

  lemma {:induction false} SpineOperand(op: Junction, e: Expr, q: Path)
    requires Spine(op, e, q) && ValidPath(e, q)
    ensures Operand(op, e, q) <==> !IsOp(op, Get(e, q))
  {
    if q != [] { SpineOperand(op, Child(e, q[0]), q[1..]); }
  }

  /** The two trees have their `op` nodes in the same places. */
  predicate SameSpine(op: Junction, e: Expr, f: Expr) {
    IsOp(op, e) == IsOp(op, f) &&
    (IsOp(op, e) ==> SameSpine(op, e.left, f.left) && SameSpine(op, e.right, f.right))
  }

  function SpineSize(op: Junction, e: Expr): nat {
    if IsOp(op, e) then 1 + SpineSize(op, e.left) + SpineSize(op, e.right) else 1
  }

  lemma SameSpineTrans(op: Junction, e: Expr, f: Expr, g: Expr)
    requires SameSpine(op, e, f) && SameSpine(op, f, g)
    ensures SameSpine(op, e, g)
  {}

  lemma {:induction false} SameSpineAt(op: Junction, e: Expr, f: Expr, q: Path)
    requires SameSpine(op, e, f) && Spine(op, e, q) && ValidPath(e, q)
    ensures Spine(op, f, q) && ValidPath(f, q) && SameSpine(op, Get(e, q), Get(f, q))
  {
    if q != [] { SameSpineAt(op, Child(e, q[0]), Child(f, q[0]), q[1..]); }
  }

  lemma {:induction false} SameSpineSize(op: Junction, e: Expr, f: Expr)
    requires SameSpine(op, e, f)
    ensures SpineSize(op, e) == SpineSize(op, f)
  {
    if IsOp(op, e) {
      SameSpineSize(op, e.left, f.left);
      SameSpineSize(op, e.right, f.right);
    }
  }

  lemma {:induction e} SameSpineRefl(op: Junction, e: Expr)
    ensures SameSpine(op, e, e)
  {}

  // ----- overwriting one operand -----

  lemma {:induction false} PutShape(op: Junction, e: Expr, q: Path, x: Expr)
    requires Spine(op, e, q) && ValidPath(e, q)
    ensures Size(Put(e, q, x)) == Size(e) - Size(Get(e, q)) + Size(x)
    ensures NotOverSymbols(e) ==> NotOverSymbols(Get(e, q))
    ensures NotOverSymbols(e) && NotOverSymbols(x) ==> NotOverSymbols(Put(e, q, x))
    ensures !IsOp(op, x) && !IsOp(op, Get(e, q)) ==> SameSpine(op, e, Put(e, q, x))
    ensures q != [] && (x == Unit(op) || HasUnit(x)) ==> HasUnit(Put(e, q, x))
    ensures q != [] ==> Size(Get(e, q)) < Size(e)
  {
    if q != [] {
      PutShape(op, Child(e, q[0]), q[1..], x);
      SameSpineRefl(op, Child(e, !q[0]));
    }
  }

  lemma {:induction false} PutLiterals(e: Expr, q: Path, x: Expr)
    requires ValidPath(e, q)
    ensures Literals(Get(e, q)) <= Literals(e) && Literals(Put(e, q, x)) <= Literals(e) + Literals(x)
  {
    if q != [] { PutLiterals(Child(e, q[0]), q[1..], x); }
  }

  lemma {:induction false} PutElsewhere(op: Junction, e: Expr, q1: Path, q2: Path, x: Expr)
    requires Operand(op, e, q1) && Operand(op, e, q2) && q1 != q2
    requires ValidPath(e, q1) && ValidPath(e, q2)
    requires !IsOp(op, x)
    ensures Operand(op, Put(e, q1, x), q2) && ValidPath(Put(e, q1, x), q2)
    ensures Get(Put(e, q1, x), q2) == Get(e, q2)
    ensures q1 != [] && q2 != []
  {
    if q1[0] == q2[0] {
      PutElsewhere(op, Child(e, q1[0]), q1[1..], q2[1..], x);
    }
  }

  /** One operand can be taken out of its level. */
  lemma {:induction false} TakeOut(op: Junction, e: Expr, q: Path, x: Expr, env: Env)
    requires Spine(op, e, q) && ValidPath(e, q)
    ensures Value(Put(e, q, x), env) ==
            Apply(op, Value(x, env), Value(Put(e, q, Unit(op)), env))
  {
    if q != [] {
      var d := q[0];
      TakeOut(op, Child(e, d), q[1..], x, env);
      var a, b := Put(Child(e, d), q[1..], x), Put(Child(e, d), q[1..], Unit(op));
      ValueJoin(op, if d then e.left else a, if d then a else e.right, env);
      ValueJoin(op, if d then e.left else b, if d then b else e.right, env);
    }
  }

  /** The result of one step of the walk, compared with the level it started from. */
  ghost predicate Simplified(op: Junction, t: Expr, u: Expr) {
    && SameSpine(op, t, u)
    && Size(u) <= Size(t)
    && (NotOverSymbols(t) ==> NotOverSymbols(u))
    && Literals(u) <= Literals(t)
    && forall env: Env | Sane(Literals(t), env) :: Value(u, env) == Value(t, env)
  }

  lemma SimplifiedTrans(op: Junction, t: Expr, u: Expr, v: Expr)
    requires Simplified(op, t, u) && Simplified(op, u, v)
    ensures Simplified(op, t, v)
  {
    SameSpineTrans(op, t, u, v);
    forall env: Env | Sane(Literals(t), env) ensures Value(v, env) == Value(t, env) {
      assert Sane(Literals(u), env);
    }
  }

  /** Joining two different operands: the first slot becomes the unit, the second the join. */
  lemma {:induction false} JoinSlots(op: Junction, t: Expr, q1: Path, q2: Path)
    requires Operand(op, t, q1) && Operand(op, t, q2) && q1 != q2
    requires Spine(op, t, q1) && Spine(op, t, q2) && ValidPath(t, q1) && ValidPath(t, q2)
    requires Merge(op, Get(t, q1), Get(t, q2)).Some?
    ensures ValidPath(Put(t, q1, Unit(op)), q2)
    ensures var u := Put(Put(t, q1, Unit(op)), q2, Merge(op, Get(t, q1), Get(t, q2)).value);
            Simplified(op, t, u) && HasUnit(u)
  {
    var a, b := Get(t, q1), Get(t, q2);
    var x := Merge(op, a, b).value;
    SpineOperand(op, t, q1);
    SpineOperand(op, t, q2);
    MergeShape(op, a, b);
    MergeLiterals(op, a, b);
    PutLiterals(t, q1, Unit(op));
    PutLiterals(t, q2, Unit(op));
    var m := Put(t, q1, Unit(op));
    PutElsewhere(op, t, q1, q2, Unit(op));
    PutShape(op, t, q1, Unit(op));
    SameSpineAt(op, t, m, q2);
    PutShape(op, m, q2, x);
    var u := Put(m, q2, x);
    PutLiterals(m, q2, x);
    SameSpineTrans(op, t, m, u);
    GetPut(t, q1, Unit(op), a);
    SameSpineAt(op, t, m, q1);
    SpineOperand(op, m, q1);
    PutElsewhere(op, m, q2, q1, x);
    SameSpineAt(op, m, u, q1);
    GetPut(u, q1, Unit(op), a);
    PutShape(op, u, q1, Unit(op));
    forall env: Env | Sane(Literals(t), env) ensures Value(u, env) == Value(t, env) {
      assert Sane(Literals(a) + Literals(b), env);
      TakeOut(op, t, q1, a, env);
      TakeOut(op, m, q2, b, env);
      GetPut(m, q2, b, b);
      TakeOut(op, m, q2, x, env);
      MergeSound(op, a, b, env);
      Regroup(op, Value(a, env), Value(a, env), Value(b, env), Value(Put(m, q2, Unit(op)), env));
    }
  }

  /** Simplifying one operand in place simplifies the level it belongs to. */
  lemma {:induction false} SimplifyOperand(op: Junction, inner: Junction, t: Expr, q: Path, x: Expr)
    requires Spine(op, t, q) && ValidPath(t, q) && q != []
    requires inner != op && IsOp(inner, Get(t, q)) && Simplified(inner, Get(t, q), x)
    ensures Simplified(op, t, Put(t, q, x))
    ensures HasUnit(x) ==> HasUnit(Put(t, q, x))
  {
    PutShape(op, t, q, x);
    PutLiterals(t, q, x);
    GetPut(t, q, x, x);
    forall env: Env | Sane(Literals(t), env) ensures Value(Put(t, q, x), env) == Value(t, env) {
      assert Sane(Literals(Get(t, q)), env);
      TakeOut(op, t, q, x, env);
      TakeOut(op, t, q, Get(t, q), env);
    }
  }

  /** Nodes of the level below position `q`. */
  function LevelSize(op: Junction, t: Expr, q: Path): nat
    requires Spine(op, t, q)
  {
    SpineValid(op, t, q);
    SpineSize(op, Get(t, q))
  }

  lemma {:induction false} LevelChildren(op: Junction, t: Expr, q: Path)
    requires Spine(op, t, q) && ValidPath(t, q) && IsOp(op, Get(t, q))
    ensures Spine(op, t, q + [false]) && Spine(op, t, q + [true])
    ensures LevelSize(op, t, q) == 1 + LevelSize(op, t, q + [false]) + LevelSize(op, t, q + [true])
  {
    SpineExtend(op, t, q, false);
    SpineExtend(op, t, q, true);
  }

  lemma {:induction false} LevelKept(op: Junction, t: Expr, u: Expr, q: Path)
    requires Simplified(op, t, u) && Spine(op, t, q)
    ensures Spine(op, u, q) && LevelSize(op, u, q) == LevelSize(op, t, q)
  {
    SpineValid(op, t, q);
    SameSpineAt(op, t, u, q);
    SameSpineSize(op, Get(t, q), Get(u, q));
  }

  // ----- what a pass without a join has established -----

  /** No operand below `q1` joins with a different operand below `q2`, and operands below `q1` that
      are themselves levels of the other connective are irreducible in turn. */
  predicate Irreducible(op: Junction, t: Expr, q1: Path, q2: Path)
    requires Spine(op, t, q1) && Spine(op, t, q2)
    decreases Size(t), LevelSize(op, t, q1) + LevelSize(op, t, q2)
  {
    SpineValid(op, t, q1);
    SpineValid(op, t, q2);
    var a, b := Get(t, q1), Get(t, q2);
    if IsOp(op, a) then
      LevelChildren(op, t, q1);
      Irreducible(op, t, q1 + [false], q2) && Irreducible(op, t, q1 + [true], q2)
    else if IsOp(op, b) then
      LevelChildren(op, t, q2);
      Irreducible(op, t, q1, q2 + [false]) && Irreducible(op, t, q1, q2 + [true])
    else if q1 == q2 then true
    else
      DistinctOperands(op, t, q1, q2);
      Merge(op, a, b).None? && (IsJunction(a) ==> Irreducible(OpOf(a), a, [], []))
  }

  /** What irreducibility says of any two operands of a level. */
  lemma {:induction false} IrreducibleOperands(op: Junction, t: Expr, p1: Path, p2: Path, s1: Path, s2: Path)
    requires Spine(op, t, p1) && Spine(op, t, p2) && Irreducible(op, t, p1, p2)
    requires Operand(op, t, p1 + s1) && Operand(op, t, p2 + s2) && p1 + s1 != p2 + s2
    ensures ValidPath(t, p1 + s1) && ValidPath(t, p2 + s2)
    ensures Merge(op, Get(t, p1 + s1), Get(t, p2 + s2)).None?
    ensures var a := Get(t, p1 + s1); IsJunction(a) ==> Irreducible(OpOf(a), a, [], [])
    decreases |s1| + |s2|
  {
    OperandBelow(op, t, p1, s1);
    OperandBelow(op, t, p2, s2);
    if s1 != [] {
      assert p1 + s1 == (p1 + [s1[0]]) + s1[1..];
      LevelChildren(op, t, p1);
      assert if s1[0] then [s1[0]] == [true] else [s1[0]] == [false];
      IrreducibleOperands(op, t, p1 + [s1[0]], p2, s1[1..], s2);
    } else if s2 != [] {
      assert p1 + s1 == p1;
      assert p2 + s2 == (p2 + [s2[0]]) + s2[1..];
      LevelChildren(op, t, p2);
      assert if s2[0] then [s2[0]] == [true] else [s2[0]] == [false];
      IrreducibleOperands(op, t, p1, p2 + [s2[0]], s1, s2[1..]);
    } else {
      assert p1 + s1 == p1 && p2 + s2 == p2;
    }
  }

  lemma {:induction false} OperandBelow(op: Junction, t: Expr, p: Path, s: Path)
    requires Spine(op, t, p) && Operand(op, t, p + s)
    ensures ValidPath(t, p) && ValidPath(t, p + s)
    ensures IsOp(op, Get(t, p)) <==> s != []
  {
    if p == [] {
      assert p + s == s;
      if s != [] {
        assert [] + s[1..] == s[1..];
        OperandBelow(op, Child(t, s[0]), [], s[1..]);
      }
    } else {
      assert (p + s)[1..] == p[1..] + s;
      OperandBelow(op, Child(t, p[0]), p[1..], s);
    }
  }

  lemma {:induction false} DistinctOperands(op: Junction, t: Expr, q1: Path, q2: Path)
    requires Spine(op, t, q1) && Spine(op, t, q2) && ValidPath(t, q1) && ValidPath(t, q2) && q1 != q2
    requires !IsOp(op, Get(t, q1)) && !IsOp(op, Get(t, q2))
    ensures Operand(op, t, q1) && Operand(op, t, q2) && q1 != []
    ensures Size(Get(t, q1)) < Size(t)
  {
    SpineOperand(op, t, q1);
    SpineOperand(op, t, q2);
    PutElsewhere(op, t, q1, q2, Unit(op));
    PutShape(op, t, q1, Unit(op));
  }

  // ----- steps on the level rooted at slot `c` of a larger tree -----

  /** Only the level at `c` changed, and it was simplified. */
  ghost predicate Step(op: Junction, c: Path, before: Expr, after: Expr) {
    ValidPath(before, c) && ValidPath(after, c) && after == Put(before, c, Get(after, c)) &&
    Simplified(op, Get(before, c), Get(after, c))
  }

  lemma {:induction false} StepRefl(op: Junction, c: Path, e: Expr)
    requires ValidPath(e, c)
    ensures Step(op, c, e, e)
  {
    GetPut(e, c, e, e);
    SameSpineRefl(op, Get(e, c));
  }

  lemma {:induction false} StepTrans(op: Junction, c: Path, e: Expr, f: Expr, g: Expr)
    requires Step(op, c, e, f) && Step(op, c, f, g)
    ensures Step(op, c, e, g)
  {
    SimplifiedTrans(op, Get(e, c), Get(f, c), Get(g, c));
    GetPut(e, c, Get(f, c), Get(g, c));
  }

  lemma {:induction false} StepLevel(op: Junction, c: Path, e: Expr, f: Expr, q: Path)
    requires Step(op, c, e, f) && Spine(op, Get(e, c), q)
    ensures Spine(op, Get(f, c), q) && LevelSize(op, Get(f, c), q) == LevelSize(op, Get(e, c), q)
    ensures ValidPath(Get(e, c), q) && ValidPath(Get(f, c), q)
    ensures IsOp(op, Get(Get(e, c), q)) == IsOp(op, Get(Get(f, c), q))
  {
    LevelKept(op, Get(e, c), Get(f, c), q);
    SpineValid(op, Get(e, c), q);
    SameSpineAt(op, Get(e, c), Get(f, c), q);
  }

  /** A step on the operand at c + q is a step on the level at c. */
  lemma {:induction false} StepOperand(op: Junction, inner: Junction, c: Path, q: Path, e: Expr, f: Expr)
    requires ValidPath(e, c) && Spine(op, Get(e, c), q) && ValidPath(Get(e, c), q) && q != []
    requires ValidPath(e, c + q) && inner != op && IsOp(inner, Get(e, c + q)) && Step(inner, c + q, e, f)
    ensures Step(op, c, e, f)
    ensures HasUnit(Get(f, c + q)) ==> HasUnit(Get(f, c))
  {
    var t, x := Get(e, c), Get(f, c + q);
    Nested(e, c, q, x);
    SimplifyOperand(op, inner, t, q, x);
    GetPut(e, c, Put(t, q, x), t);
  }

  /** Overwriting two different operands with the unit and their join is a step. */
  lemma {:induction false} StepJoin(op: Junction, c: Path, q1: Path, q2: Path, e: Expr)
    requires ValidPath(e, c) && Spine(op, Get(e, c), q1) && Spine(op, Get(e, c), q2) && q1 != q2
    requires ValidPath(Get(e, c), q1) && ValidPath(Get(e, c), q2)
    requires !IsOp(op, Get(Get(e, c), q1)) && !IsOp(op, Get(Get(e, c), q2))
    requires Merge(op, Get(Get(e, c), q1), Get(Get(e, c), q2)).Some?
    ensures ValidPath(e, c + q1) && ValidPath(Put(e, c + q1, Unit(op)), c + q2)
    ensures var f := Put(Put(e, c + q1, Unit(op)), c + q2, Merge(op, Get(Get(e, c), q1), Get(Get(e, c), q2)).value);
            Step(op, c, e, f) && HasUnit(Get(f, c))
  {
    var t := Get(e, c);
    var m, x := Put(t, q1, Unit(op)), Merge(op, Get(t, q1), Get(t, q2)).value;
    DistinctOperands(op, t, q1, q2);
    JoinSlots(op, t, q1, q2);
    Nested(e, c, q1, Unit(op));
    GetPut(e, c, m, Put(m, q2, x));
    Nested(Put(e, c, m), c, q2, x);
    GetPut(e, c, Put(m, q2, x), t);
  }

  /** `trans_count` and the slot `e` that expr_eliminate_dups works on. */
  class Simplifier {
    var root: Expr
    var transCount: nat

    constructor ()
      ensures transCount == 0
    {
      root, transCount := Sym(Yes), 0;
    }

    /** expr_eliminate_dups1 on the slots c + q1 and c + q2 of one level rooted at c. */
    method Dups1(op: Junction, c: Path, q1: Path, q2: Path)
      requires ValidPath(root, c)
      requires Spine(op, Get(root, c), q1) && Spine(op, Get(root, c), q2)
      modifies this
      ensures Step(op, c, old(root), root)
      ensures transCount >= old(transCount)
      ensures transCount == old(transCount) ==> root == old(root) && Irreducible(op, Get(root, c), q1, q2)
      ensures transCount > old(transCount) ==> HasUnit(Get(root, c))
      decreases Size(Get(root, c)), LevelSize(op, Get(root, c), q1) + LevelSize(op, Get(root, c), q2), 1
    {
      StepRefl(op, c, root);
      StepLevel(op, c, root, root, q1);
      StepLevel(op, c, root, root, q2);
      Nested(root, c, q1, Unit(op));
      Nested(root, c, q2, Unit(op));
      if IsOp(op, Get(root, c + q1)) {
        LevelChildren(op, Get(root, c), q1);
        Dups1(op, c, q1 + [false], q2);
        StepLevel(op, c, old(root), root, q1 + [true]);
        StepLevel(op, c, old(root), root, q2);
        ghost var between := root;
        Dups1(op, c, q1 + [true], q2);
        StepTrans(op, c, old(root), between, root);
      } else if IsOp(op, Get(root, c + q2)) {
        LevelChildren(op, Get(root, c), q2);
        Dups1(op, c, q1, q2 + [false]);
        StepLevel(op, c, old(root), root, q2 + [true]);
        StepLevel(op, c, old(root), root, q1);
        ghost var between := root;
        Dups1(op, c, q1, q2 + [true]);
        StepTrans(op, c, old(root), between, root);
      } else if q1 != q2 {
        DupsLeaves(op, c, q1, q2);
      }
    }

    /** The part of expr_eliminate_dups1 that compares two different leaves. */
    method DupsLeaves(op: Junction, c: Path, q1: Path, q2: Path)
      requires ValidPath(root, c)
      requires Spine(op, Get(root, c), q1) && Spine(op, Get(root, c), q2) && q1 != q2
      requires ValidPath(Get(root, c), q1) && ValidPath(Get(root, c), q2)
      requires !IsOp(op, Get(Get(root, c), q1)) && !IsOp(op, Get(Get(root, c), q2))
      modifies this
      ensures Step(op, c, old(root), root)
      ensures transCount >= old(transCount)
      ensures transCount == old(transCount) ==> root == old(root) && Irreducible(op, Get(root, c), q1, q2)
      ensures transCount > old(transCount) ==> HasUnit(Get(root, c))
      decreases Size(Get(root, c)), LevelSize(op, Get(root, c), q1) + LevelSize(op, Get(root, c), q2), 0
    {
      DistinctOperands(op, Get(root, c), q1, q2);
      Nested(root, c, q1, Unit(op));
      StepRefl(op, c, root);
      var first := Get(root, c + q1);
      if IsJunction(first) {
        Dups1(OpOf(first), c + q1, [], []);
        StepOperand(op, OpOf(first), c, q1, old(root), root);
      }
      ghost var between := root;
      StepLevel(op, c, old(root), root, q1);
      StepLevel(op, c, old(root), root, q2);
      Nested(root, c, q1, Unit(op));
      Nested(root, c, q2, Unit(op));
      var merged := Merge(op, Get(root, c + q1), Get(root, c + q2));
      if merged.Some? {
        StepJoin(op, c, q1, q2, root);
        root := Put(root, c + q1, Unit(op));
        root := Put(root, c + q2, merged.value);
        transCount := transCount + 1;
        StepTrans(op, c, old(root), between, root);
      }
    }

    /** expr_eliminate_dups: passes over `e` until one makes no join. Every pass that joins strictly
        shrinks the tree once the units are removed, which is why the loop ends. */
    method EliminateDups(e: Expr) returns (r: Expr)
      modifies this
      ensures transCount == old(transCount)
      ensures forall env: Env | Sane(Literals(e), env) :: Value(r, env) == Value(e, env)
      ensures Size(r) <= Size(e) && Literals(r) <= Literals(e)
      ensures NotOverSymbols(e) ==> NotOverSymbols(r)
      ensures IsJunction(r) ==> Irreducible(OpOf(r), r, [], [])
    {
      var oldCount := transCount;
      root := e;
      while true
        invariant forall env: Env | Sane(Literals(e), env) :: Value(root, env) == Value(e, env)
        invariant Size(root) <= Size(e) && Literals(root) <= Literals(e)
        invariant NotOverSymbols(e) ==> NotOverSymbols(root)
        decreases Size(root)
      {
        transCount := 0;
        if IsJunction(root) {
          Dups1(OpOf(root), [], [], []);
        }
        if transCount == 0 {
          break;
        }
        EliminateYnShape(root);
        EliminateYnLiterals(root);
        forall env: Env ensures Value(EliminateYn(root), env) == Value(root, env) {
          EliminateYnValue(root, env);
        }
        root := EliminateYn(root);
      }
      transCount := oldCount;
      r := root;
    }
  }
}
