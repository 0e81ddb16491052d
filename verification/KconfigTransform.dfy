/** Negation pushing, rewriting into comparisons, and the dependency pipeline of menu_finalize
    (kconf/expr.c:387-418, 680-976, kconf/menu.c:79-107, 342-398, 447-485).
 */
module KconfigTransform {
  import opened KconfigExpr
  import opened KconfigEquality
  import opened KconfigDups

  // ----- expr_transform -----

  /** Pushing one NOT below a connective makes two of them, so plain size does not decrease. */
  function Weight(e: Expr): nat
    ensures Weight(e) >= 1
  {
    match e
    case Sym(_) => 1
    case Cmp(_, _, _) => 2
    case Not(a) => 2 * Weight(a)
    case And(l, r) => 1 + Weight(l) + Weight(r)
    case Or(l, r) => 1 + Weight(l) + Weight(r)
  }

  function TransformTest(op: CmpOp, l: Symbol, r: Symbol): Expr {
    if l.Type() != Boolean then Cmp(op, l, r)
    else match (op, r)
         case (Eq, No) => Not(Sym(l))
         case (Eq, Mod) => Sym(No)
         case (Eq, Yes) => Sym(l)
         case (Neq, No) => Sym(l)
         case (Neq, Mod) => Sym(Yes)
         case (Neq, Yes) => Not(Sym(l))
         case _ => Cmp(op, l, r)
  }

  function Negated(op: CmpOp): CmpOp {
    match op
    case Eq => Neq
    case Neq => Eq
    case Leq => Gth
    case Geq => Lth
    case Lth => Geq
    case Gth => Leq
  }

  lemma PushLighter(l: Expr, r: Expr)
    ensures Weight(And(Not(l), Not(r))) < Weight(Not(Or(l, r)))
    ensures Weight(Or(Not(l), Not(r))) < Weight(Not(And(l, r)))
  {
    assert Weight(Not(l)) == 2 * Weight(l) && Weight(Not(r)) == 2 * Weight(r);
  }

  function Transform(e: Expr): (r: Expr)
    ensures Weight(r) <= Weight(e)
    decreases Weight(e)
  {
    match e
    case Sym(_) => e
    case Cmp(op, l, r) => TransformTest(op, l, r)
    case And(l, r) => And(Transform(l), Transform(r))
    case Or(l, r) => Or(Transform(l), Transform(r))
    case Not(a) =>
      var x := Transform(a);
      match x
      case Not(b) => Transform(b)
      case Cmp(op, l, r) => Cmp(Negated(op), l, r)
      case Or(l, r) => PushLighter(l, r); Transform(And(Not(l), Not(r)))
      case And(l, r) => PushLighter(l, r); Transform(Or(Not(l), Not(r)))
      case Sym(s) =>
        if s == Yes then Sym(No) else if s == No then Sym(Yes) else if s == Mod then Sym(Mod) else Not(x)
  }

  /** NOT stands only over symbols other than y, m and n, and no bool symbol is compared with y, m or n. */
  predicate Normal(e: Expr) {
    match e
    case Sym(_) => true
    case Not(a) => a.Sym? && !a.sym.Builtin()
    case And(l, r) => Normal(l) && Normal(r)
    case Or(l, r) => Normal(l) && Normal(r)
    case Cmp(op, l, r) => !(op in {Eq, Neq} && l.Type() == Boolean && r.Builtin())
  }

  lemma {:induction false} TransformNormal(e: Expr)
    ensures Normal(Transform(e))
    decreases Weight(e)
  {
    match e
    case Sym(_) =>
    case Cmp(_, _, _) =>
    case And(l, r) => TransformNormal(l); TransformNormal(r);
    case Or(l, r) => TransformNormal(l); TransformNormal(r);
    case Not(a) =>
      TransformNormal(a);
      match Transform(a)
      case Not(b) => TransformNormal(b);
      case Or(l, r) => PushLighter(l, r); TransformNormal(And(Not(l), Not(r)));
      case And(l, r) => PushLighter(l, r); TransformNormal(Or(Not(l), Not(r)));
      case _ =>
  }

  /** The fixed points are exactly the normal forms; with TransformNormal, Transform is idempotent. */
  lemma {:induction false} TransformFixed(e: Expr)
    ensures Transform(e) == e <==> Normal(e)
    ensures Transform(Transform(e)) == Transform(e)
    decreases Weight(e)
  {
    TransformNormal(e);
    NormalFixed(Transform(e));
    if Normal(e) { NormalFixed(e); }
  }

  lemma {:induction false} NormalFixed(e: Expr)
    requires Normal(e)
    ensures Transform(e) == e
  {
    if IsJunction(e) {
      NormalFixed(e.left);
      NormalFixed(e.right);
    }
  }

  /** Transforming brings in no literals. */
  lemma {:induction false} TransformLiterals(e: Expr)
    ensures Literals(Transform(e)) <= Literals(e)
    decreases Weight(e)
  {
    match e
    case Sym(_) =>
    case Cmp(_, _, _) =>
    case And(l, r) => TransformLiterals(l); TransformLiterals(r);
    case Or(l, r) => TransformLiterals(l); TransformLiterals(r);
    case Not(a) =>
      TransformLiterals(a);
      match Transform(a)
      case Not(b) => TransformLiterals(b);
      case Or(l, r) => PushLighter(l, r); TransformLiterals(And(Not(l), Not(r)));
      case And(l, r) => PushLighter(l, r); TransformLiterals(Or(Not(l), Not(r)));
      case _ =>
  }

  lemma NormalNotOverSymbols(e: Expr)
    requires Normal(e)
    ensures NotOverSymbols(e)
  {}

  /** Every <, <=, >, >= in `e` compares values that can be ordered. */
  predicate Ordered(e: Expr, env: Env) {
    match e
    case Sym(_) => true
    case Not(a) => Ordered(a, env)
    case And(l, r) => Ordered(l, env) && Ordered(r, env)
    case Or(l, r) => Ordered(l, env) && Ordered(r, env)
    case Cmp(op, l, r) => op in {Eq, Neq} || Relate(l, r, env).ordered
  }

  lemma TransformTestValue(op: CmpOp, l: Symbol, r: Symbol, env: Env)
    requires Consistent(env) && Ordered(Cmp(op, l, r), env)
    ensures Value(TransformTest(op, l, r), env) == Value(Cmp(op, l, r), env) && Ordered(TransformTest(op, l, r), env)
  {
    if l.Truth() { TestValues(l, env); }
  }

  lemma NegatedValue(op: CmpOp, l: Symbol, r: Symbol, env: Env)
    requires Ordered(Cmp(op, l, r), env)
    ensures Value(Cmp(Negated(op), l, r), env) == 2 - Value(Cmp(op, l, r), env)
    ensures Ordered(Cmp(Negated(op), l, r), env)
  {}

  lemma {:induction false} TransformValue(e: Expr, env: Env)
    requires Consistent(env) && Ordered(e, env)
    ensures Value(Transform(e), env) == Value(e, env) && Ordered(Transform(e), env)
    decreases Weight(e)
  {
    hide Relate, Holds, Consistent, TransformTest, Negated;
    match e
    case Sym(_) =>
    case Cmp(op, l, r) => TransformTestValue(op, l, r, env);
    case And(l, r) => TransformValue(l, env); TransformValue(r, env);
    case Or(l, r) => TransformValue(l, env); TransformValue(r, env);
    case Not(a) =>
      TransformValue(a, env);
      match Transform(a)
      case Not(b) => TransformValue(b, env);
      case Or(l, r) => PushLighter(l, r); TransformValue(And(Not(l), Not(r)), env);
      case And(l, r) => PushLighter(l, r); TransformValue(Or(Not(l), Not(r)), env);
      case Cmp(op, l, r) => NegatedValue(op, l, r, env);
      case _ =>
  }

  /** With an operand of no comparable type, a negated ordering is n before and after its flip. */
  lemma NegatedOrdering(op: CmpOp, l: Symbol, r: Symbol, env: Env)
    requires op !in {Eq, Neq}
    ensures Value(Transform(Not(Cmp(op, l, r))), env) == Value(Not(Cmp(op, l, r)), env)
            <==> Relate(l, r, env).ordered
  {
    assert Transform(Cmp(op, l, r)) == Cmp(op, l, r);
  }

  /** Such an operand is a symbol without a type: `!(A < A)` is y, and becomes `A >= A`, which is n. */
  lemma UndefinedOrdering(a: Symbol, env: Env)
    requires a.Type() == Other
    ensures Value(Not(Cmp(Lth, a, a)), env) == YES && Value(Transform(Not(Cmp(Lth, a, a))), env) == NO
  {
    NegatedOrdering(Lth, a, a, env);
  }

  // ----- expr_trans_bool -----

  function TransBool(e: Expr): Expr {
    match e
    case Not(a) => Not(TransBool(a))
    case And(l, r) => And(TransBool(l), TransBool(r))
    case Or(l, r) => Or(TransBool(l), TransBool(r))
    case Cmp(op, l, r) => if op == Neq && l.Type() == Tristate && r == No then Sym(l) else e
    case _ => e
  }

  /** sym_calc_visibility reads m as y for a symbol that is not tristate (kconf/symbol.c:234). */
  function Promote(t: Tri): Tri { if t == MOD then YES else t }

  lemma {:induction false} TransBoolVisibility(e: Expr, env: Env)
    requires Consistent(env) && NotOverSymbols(e)
    ensures Promote(Value(TransBool(e), env)) == Promote(Value(e, env))
  {
    match e
    case And(l, r) => TransBoolVisibility(l, env); TransBoolVisibility(r, env);
    case Or(l, r) => TransBoolVisibility(l, env); TransBoolVisibility(r, env);
    case Cmp(op, l, r) => if l.Truth() { TestValues(l, env); }
    case _ =>
  }

  /** Under a NOT the step is wrong exactly when the tristate symbol is m. */
  lemma TransBoolUnderNot(s: Symbol, env: Env)
    requires Consistent(env) && s.Type() == Tristate
    ensures var e := Not(Cmp(Neq, s, No));
            Promote(Value(TransBool(e), env)) == Promote(Value(e, env)) <==> Curr(s, env) != MOD
  {
    TestValues(s, env);
  }

  /** No symbol that is tested for not being n is m. */
  predicate TestedNotM(e: Expr, env: Env) {
    match e
    case Not(a) => TestedNotM(a, env)
    case And(l, r) => TestedNotM(l, env) && TestedNotM(r, env)
    case Or(l, r) => TestedNotM(l, env) && TestedNotM(r, env)
    case Cmp(op, l, r) => op == Neq && l.Type() == Tristate && r == No ==> Curr(l, env) != MOD
    case _ => true
  }

  /** The condition of a `select` of a bool symbol goes through expr_trans_bool too (kconf/menu.c:398-412),
      although the selected symbol may be tristate: it never grows, becomes n nowhere else, and keeps its
      value if no symbol tested for not being n is m. */
  lemma {:induction false} TransBoolSelect(e: Expr, env: Env)
    requires Consistent(env) && NotOverSymbols(e)
    ensures Value(TransBool(e), env) <= Value(e, env)
    ensures Value(TransBool(e), env) == NO <==> Value(e, env) == NO
    ensures TestedNotM(e, env) ==> Value(TransBool(e), env) == Value(e, env)
  {
    match e
    case And(l, r) => TransBoolSelect(l, env); TransBoolSelect(r, env);
    case Or(l, r) => TransBoolSelect(l, env); TransBoolSelect(r, env);
    case Cmp(op, l, r) => if l.Truth() { TestValues(l, env); }
    case _ =>
  }

  /** Otherwise y becomes m: what is selected if S!=n is only selected as m where S is m. */
  lemma SelectWeakened(s: Symbol, env: Env)
    requires Consistent(env) && s.Type() == Tristate
    ensures Value(TransBool(Cmp(Neq, s, No)), env) == Value(Cmp(Neq, s, No), env) <==> Curr(s, env) != MOD
    ensures Curr(s, env) == MOD ==> Value(TransBool(Cmp(Neq, s, No)), env) == MOD && Value(Cmp(Neq, s, No), env) == YES
  {
    TestValues(s, env);
  }

  // ----- rewrite_m -----

  function RewriteM(e: Expr, modules: Symbol): Expr {
    match e
    case Not(a) => Not(RewriteM(a, modules))
    case And(l, r) => And(RewriteM(l, modules), RewriteM(r, modules))
    case Or(l, r) => Or(RewriteM(l, modules), RewriteM(r, modules))
    case Sym(s) => if s == Mod then And(e, Sym(modules)) else e
    case Cmp(_, _, _) => e
  }

  /** The reading of a dependency as written: the constant m is capped by MODULES. */
  function Meaning(e: Expr, env: Env): Tri {
    match e
    case Sym(s) => if s == Mod then Min(MOD, Curr(env.modules, env)) else Curr(s, env)
    case Not(a) => 2 - Meaning(a, env)
    case And(l, r) => Min(Meaning(l, env), Meaning(r, env))
    case Or(l, r) => Max(Meaning(l, env), Meaning(r, env))
    case Cmp(_, _, _) => Value(e, env)
  }

  function MeaningOpt(e: Option<Expr>, env: Env): Tri {
    if e.None? then YES else Meaning(e.value, env)
  }

  lemma {:induction false} RewriteMValue(e: Expr, env: Env)
    ensures Value(RewriteM(e, env.modules), env) == Meaning(e, env)
    ensures Ordered(RewriteM(e, env.modules), env) == Ordered(e, env)
  {
    match e
    case Not(a) => RewriteMValue(a, env);
    case And(l, r) => RewriteMValue(l, env); RewriteMValue(r, env);
    case Or(l, r) => RewriteMValue(l, env); RewriteMValue(r, env);
    case _ =>
  }

  lemma {:induction false} RewriteMLiterals(e: Expr, modules: Symbol)
    requires !modules.Literal?
    ensures Literals(RewriteM(e, modules)) <= Literals(e)
  {
    match e
    case Not(a) => RewriteMLiterals(a, modules);
    case And(l, r) => RewriteMLiterals(l, modules); RewriteMLiterals(r, modules);
    case Or(l, r) => RewriteMLiterals(l, modules); RewriteMLiterals(r, modules);
    case _ =>
  }

  // ----- the pipeline of menu_finalize for one condition -----

  predicate NotOverSymbolsOpt(e: Option<Expr>) { e.Some? ==> NotOverSymbols(e.value) }
  predicate OrderedOpt(e: Option<Expr>, env: Env) { e.Some? ==> Ordered(e.value, env) }

  /** A symbol of the configuration, or symbol_no if none is declared as MODULES. */
  predicate MayBeModules(s: Symbol) { s.Config? || s == No }

  /** rewrite_m and expr_transform. */
  function Prepared(e: Expr, modules: Symbol): Expr { Transform(RewriteM(e, modules)) }

  lemma PreparedSound(e: Expr, modules: Symbol)
    requires MayBeModules(modules)
    ensures NotOverSymbols(Prepared(e, modules)) && Literals(Prepared(e, modules)) <= Literals(e)
    ensures forall env: Env | Consistent(env) && env.modules == modules && Ordered(e, env) ::
      Value(Prepared(e, modules), env) == Meaning(e, env)
  {
    var m := RewriteM(e, modules);
    RewriteMLiterals(e, modules);
    TransformLiterals(m);
    TransformNormal(m);
    NormalNotOverSymbols(Transform(m));
    forall env: Env | Consistent(env) && env.modules == modules && Ordered(e, env)
      ensures Value(Prepared(e, modules), env) == Meaning(e, env)
    {
      RewriteMValue(e, env);
      TransformValue(m, env);
    }
  }

  /** The literals of the conditions, if any, are no numerals. */
  ghost predicate SaneOpts(a: Option<Expr>, b: Option<Expr>, env: Env) {
    Sane(LiteralsOpt(a) + LiteralsOpt(b), env)
  }

  /** rewrite_m, expr_transform, AND with the inherited dependency, expr_eliminate_dups. */
  method Inherit(inherited: Option<Expr>, own: Option<Expr>, modules: Symbol) returns (dep: Option<Expr>)
    requires NotOverSymbolsOpt(inherited) && MayBeModules(modules)
    ensures NotOverSymbolsOpt(dep) && LiteralsOpt(dep) <= LiteralsOpt(inherited) + LiteralsOpt(own)
    ensures forall env: Env | SaneOpts(inherited, own, env) && env.modules == modules && OrderedOpt(own, env) ::
      ValueOpt(dep, env) == Min(ValueOpt(inherited, env), MeaningOpt(own, env))
  {
    var transformed: Option<Expr> := None;
    if own.Some? {
      transformed := Some(Prepared(own.value, modules));
      PreparedSound(own.value, modules);
    }
    dep := AllocAnd(inherited, transformed);
    hide Prepared, Meaning, Ordered;
    if dep.Some? {
      ghost var joined := dep.value;
      assert Literals(joined) <= LiteralsOpt(inherited) + LiteralsOpt(own);
      var simplifier := new Simplifier();
      var r := simplifier.EliminateDups(dep.value);
      dep := Some(r);
      forall env: Env | SaneOpts(inherited, own, env) ensures Value(r, env) == Value(joined, env) {
        assert Sane(Literals(joined), env);
      }
    }
  }

  /** The condition of one property (kconf/menu.c:392-398). For a tristate symbol its value is kept;
      for any other symbol its visibility after the m-to-y promotion is kept. */
  method PropertyCondition(tristate: bool, basedep: Option<Expr>, visible: Option<Expr>, modules: Symbol)
    returns (dep: Option<Expr>)
    requires NotOverSymbolsOpt(basedep) && MayBeModules(modules)
    ensures NotOverSymbolsOpt(dep) && LiteralsOpt(dep) <= LiteralsOpt(basedep) + LiteralsOpt(visible)
    ensures tristate ==>
      forall env: Env | SaneOpts(basedep, visible, env) && env.modules == modules && OrderedOpt(visible, env) ::
        ValueOpt(dep, env) == Min(ValueOpt(basedep, env), MeaningOpt(visible, env))
    ensures forall env: Env | SaneOpts(basedep, visible, env) && env.modules == modules && OrderedOpt(visible, env) ::
      Promote(ValueOpt(dep, env)) == Promote(Min(ValueOpt(basedep, env), MeaningOpt(visible, env)))
  {
    dep := Inherit(basedep, visible, modules);
    if !tristate && dep.Some? {
      forall env: Env | Consistent(env)
        ensures Promote(Value(TransBool(dep.value), env)) == Promote(Value(dep.value, env))
      {
        TransBoolVisibility(dep.value, env);
      }
      NotOverSymbolsTransBool(dep.value);
      TransBoolLiterals(dep.value);
      dep := Some(TransBool(dep.value));
    }
  }

  lemma {:induction false} TransBoolLiterals(e: Expr)
    ensures Literals(TransBool(e)) <= Literals(e)
  {
    match e
    case Not(a) => TransBoolLiterals(a);
    case And(l, r) => TransBoolLiterals(l); TransBoolLiterals(r);
    case Or(l, r) => TransBoolLiterals(l); TransBoolLiterals(r);
    case _ =>
  }

  lemma NotOverSymbolsTransBool(e: Expr)
    requires NotOverSymbols(e)
    ensures NotOverSymbols(TransBool(e))
  {}

  // ----- automatic submenus -----

  /** expr_trans_compare, for `type` E_EQUAL or E_UNEQUAL. */
  function TransCompare(e: Expr, equal: bool, c: Symbol): Expr {
    match e
    case And(l, r) =>
      var a, b := TransCompare(l, true, c), TransCompare(r, true, c);
      var j := if c == Yes then And(a, b) else if c == No then Or(a, b) else e;
      if equal then j else Not(j)
    case Or(l, r) =>
      var a, b := TransCompare(l, true, c), TransCompare(r, true, c);
      var j := if c == Yes then Or(a, b) else if c == No then And(a, b) else e;
      if equal then j else Not(j)
    case Not(a) => TransCompare(a, !equal, c)
    case Cmp(_, _, _) =>
      if c == Mod then Sym(if equal then No else Yes)
      else if equal == (c == Yes) then e else Not(e)
    case Sym(s) => Cmp(if equal then Eq else Neq, s, c)
  }

  function TransCompareOpt(e: Option<Expr>, equal: bool, c: Symbol): Expr {
    if e.Some? then TransCompare(e.value, equal, c)
    else if equal then Sym(c) else Not(Sym(c))
  }

  /** All symbols used as truth values are of a truth type, and none below a NOT is m. */
  predicate Crisp(e: Expr, negated: bool, env: Env) {
    match e
    case Sym(s) => (s.Truth() || s.Builtin()) && (negated ==> Curr(s, env) != MOD)
    case Not(a) => Crisp(a, true, env)
    case And(l, r) => Crisp(l, negated, env) && Crisp(r, negated, env)
    case Or(l, r) => Crisp(l, negated, env) && Crisp(r, negated, env)
    case Cmp(_, _, _) => true
  }

  lemma {:induction false} CrispNotMod(e: Expr, env: Env)
    requires Crisp(e, true, env)
    ensures Value(e, env) != MOD
  {
    match e
    case Not(a) => CrispNotMod(a, env);
    case And(l, r) => CrispNotMod(l, env); CrispNotMod(r, env);
    case Or(l, r) => CrispNotMod(l, env); CrispNotMod(r, env);
    case _ =>
  }

  /** The rewritten expression is y exactly when `e` equals (or differs from) the constant. */
  lemma {:induction false} TransCompareValue(e: Expr, equal: bool, c: Symbol, negated: bool, env: Env)
    requires Consistent(env) && c in {Yes, No} && Crisp(e, negated, env)
    ensures Value(TransCompare(e, equal, c), env) ==
            (if (Value(e, env) == Curr(c, env)) == equal then YES else NO)
  {
    match e
    case And(l, r) => TransCompareValue(l, true, c, negated, env); TransCompareValue(r, true, c, negated, env);
    case Or(l, r) => TransCompareValue(l, true, c, negated, env); TransCompareValue(r, true, c, negated, env);
    case Not(a) => TransCompareValue(a, !equal, c, true, env); CrispNotMod(a, env);
    case Cmp(_, _, _) =>
    case Sym(s) => if s.Truth() { TestValues(s, env); } else { ConstantTests(s, c, env); }
  }

  /** Under a NOT over one symbol the comparison with n or y is right exactly when the symbol is not m. */
  lemma TransCompareUnderNot(s: Symbol, equal: bool, c: Symbol, env: Env)
    requires Consistent(env) && s.Truth() && c in {Yes, No}
    ensures Value(TransCompare(Not(Sym(s)), equal, c), env) ==
            (if (Value(Not(Sym(s)), env) == Curr(c, env)) == equal then YES else NO)
            <==> Curr(s, env) != MOD
  {
    TestValues(s, env);
  }

  lemma ConstantTests(s: Symbol, c: Symbol, env: Env)
    requires s.Builtin() && c.Builtin()
    ensures Relate(s, c, env).res == 0 <==> s == c
  {
    StrCmpZero(StringValue(s, env), StringValue(c, env));
  }

  predicate CrispOpt(e: Option<Expr>, env: Env) { e.Some? ==> Crisp(e.value, false, env) }

  lemma {:induction false} TransCompareOrdered(e: Expr, equal: bool, c: Symbol, env: Env)
    requires Ordered(e, env)
    ensures Ordered(TransCompare(e, equal, c), env)
  {
    match e
    case And(l, r) => TransCompareOrdered(l, true, c, env); TransCompareOrdered(r, true, c, env);
    case Or(l, r) => TransCompareOrdered(l, true, c, env); TransCompareOrdered(r, true, c, env);
    case Not(a) => TransCompareOrdered(a, !equal, c, env);
    case _ =>
  }

  lemma {:induction false} TransCompareLiterals(e: Expr, equal: bool, c: Symbol)
    requires c.Builtin()
    ensures Literals(TransCompare(e, equal, c)) <= Literals(e)
  {
    match e
    case And(l, r) => TransCompareLiterals(l, true, c); TransCompareLiterals(r, true, c);
    case Or(l, r) => TransCompareLiterals(l, true, c); TransCompareLiterals(r, true, c);
    case Not(a) => TransCompareLiterals(a, !equal, c);
    case _ =>
  }

  /** expr_eliminate_dups(expr_transform(expr_trans_compare(e, E_UNEQUAL, n))): y iff `e` is not n. */
  method NotNo(e: Option<Expr>) returns (r: Expr)
    ensures forall env: Env | Sane(LiteralsOpt(e), env) && OrderedOpt(e, env) && CrispOpt(e, env) ::
      Value(r, env) == (if ValueOpt(e, env) != NO then YES else NO)
  {
    var t := TransCompareOpt(e, false, No);
    TransformLiterals(t);
    if e.Some? { TransCompareLiterals(e.value, false, No); }
    var simplifier := new Simplifier();
    r := simplifier.EliminateDups(Transform(t));
    forall env: Env | Sane(LiteralsOpt(e), env) && OrderedOpt(e, env) && CrispOpt(e, env)
      ensures Value(r, env) == (if ValueOpt(e, env) != NO then YES else NO)
    {
      assert Sane(Literals(Transform(t)), env);
      NotNoValue(e, env);
    }
  }

  lemma NotNoValue(e: Option<Expr>, env: Env)
    requires Consistent(env) && OrderedOpt(e, env) && CrispOpt(e, env)
    ensures Value(Transform(TransCompareOpt(e, false, No)), env) == (if ValueOpt(e, env) != NO then YES else NO)
  {
    if e.Some? {
      TransCompareValue(e.value, false, No, false, env);
      TransCompareOrdered(e.value, false, No, env);
    }
    TransformValue(TransCompareOpt(e, false, No), env);
  }

  /** If the base dependency cancels down to y, the dependency is at most the base dependency. */
  lemma SupersetSound(dep: Expr, base: Expr)
    requires EliminateEq(dep, base).1 == Sym(Yes)
    ensures forall env: Env :: Value(dep, env) <= Value(base, env)
  {
    var op, k := EliminateEqSplits(dep, base);
    forall env: Env ensures Value(dep, env) <= Value(base, env) {
      assert Value(dep, env) == Apply(op, Value(k, env), Value(EliminateEq(dep, base).0, env));
      assert Value(base, env) == Apply(op, Value(k, env), Value(Sym(Yes), env));
    }
  }

  /** What "is not n" becomes for `!A && B`. */
  lemma NotNoPair(a: Symbol, b: Symbol)
    requires a.Type() == b.Type() == Tristate
    ensures Transform(TransCompare(And(Not(Sym(a)), Sym(b)), false, No)) == And(Cmp(Eq, a, No), Cmp(Neq, b, No))
  {
    var l, r := Cmp(Neq, a, No), Cmp(Eq, b, No);
    TransCompareSym(a, false, No);
    TransCompareSym(b, true, No);
    assert TransCompare(Not(Sym(a)), true, No) == l;
    assert TransCompare(And(Not(Sym(a)), Sym(b)), false, No) == Not(Or(l, r));
    TransformNotOr(l, r);
  }

  lemma TransCompareSym(s: Symbol, equal: bool, c: Symbol)
    ensures TransCompare(Sym(s), equal, c) == Cmp(if equal then Eq else Neq, s, c)
  {}

  lemma TransformNotOr(l: Expr, r: Expr)
    requires l.Cmp? && r.Cmp? && l.lhs.Type() == r.lhs.Type() == Tristate
    ensures Transform(Not(Or(l, r))) ==
      And(Cmp(Negated(l.op), l.lhs, l.rhs), Cmp(Negated(r.op), r.lhs, r.rhs))
  {
    assert Transform(l) == l;
    assert Transform(r) == r;
    assert Transform(Or(l, r)) == Or(l, r);
    assert Transform(Not(l)) == Cmp(Negated(l.op), l.lhs, l.rhs);
    assert Transform(Not(r)) == Cmp(Negated(r.op), r.lhs, r.rhs);
    assert Transform(And(Not(l), Not(r))) == And(Transform(Not(l)), Transform(Not(r)));
  }

  /** Of two tests the first is found in the conjunction, and nothing but y is left of it. */
  lemma FirstEliminated(l: Expr, r: Expr)
    requires l.Cmp? && r.Cmp? && l != r && l.lhs != r.lhs
    ensures EliminateEq(And(l, r), l).1 == Sym(Yes)
  {
    assert EliminateEqWalk(Conj, l, l) == (Sym(Yes), Sym(Yes));
    assert EliminateEqWalk(Conj, r, Sym(Yes)) == (r, Sym(Yes));
    assert EliminateEqWalk(Conj, And(l, r), l).1 == Sym(Yes);
  }

  /** Where a negated symbol is m the test goes wrong: an item that depends on `!A && B`, which may be m, passes for
      being visible only where `A = n` is, which is n. What is left of the parent's expression is y.
   */
  lemma SupersetFails(a: Symbol, b: Symbol, env: Env)
    requires Consistent(env) && a.Type() == b.Type() == Tristate && a != b && Curr(a, env) == MOD && Curr(b, env) == YES
    ensures var dep, base := And(Not(Sym(a)), Sym(b)), Cmp(Eq, a, No);
      && EliminateEq(Transform(TransCompare(dep, false, No)), Transform(TransCompare(base, false, No))).1 == Sym(Yes)
      && Value(dep, env) == MOD && Value(base, env) == NO
  {
    var base := Cmp(Eq, a, No);
    TestValues(a, env);
    NotNoPair(a, b);
    assert TransCompare(base, false, No) == base && Transform(base) == base;
    FirstEliminated(base, Cmp(Neq, b, No));
    hide Consistent, TransCompare, Transform, EliminateEq;
    assert Value(Not(Sym(a)), env) == MOD;
  }

  /** The "superset" test for putting an item into the submenu of a symbol (kconf/menu.c:447-481):
      when it answers yes, the item is visible only where the symbol's own prompt is. */
  method Superset(dep: Option<Expr>, basedep: Option<Expr>) returns (yes: bool)
    ensures yes ==>
      forall env: Env | SaneOpts(dep, basedep, env) && OrderedOpt(dep, env) && CrispOpt(dep, env) &&
                        OrderedOpt(basedep, env) && CrispOpt(basedep, env) ::
        ValueOpt(dep, env) != NO ==> ValueOpt(basedep, env) != NO
  {
    var base := NotNo(basedep);
    var d := NotNo(dep);
    var (_, rest) := EliminateEq(d, base);
    yes := rest == Sym(Yes);
    if yes { SupersetSound(d, base); }
    assert forall env: Env :: SaneOpts(dep, basedep, env) ==>
      Sane(LiteralsOpt(dep), env) && Sane(LiteralsOpt(basedep), env);
  }

  /** expr_depends_symbol */
  predicate DependsSymbol(e: Expr, s: Symbol) {
    match e
    case And(l, r) => DependsSymbol(l, s) || DependsSymbol(r, s)
    case Sym(t) => t == s
    case Cmp(Eq, l, r) => l == s && (r == Yes || r == Mod)
    case Cmp(Neq, l, r) => l == s && r == No
    case _ => false
  }

  /** An absolute dependency: where the item is visible, the symbol is not n. */
  lemma {:induction false} DependsSymbolSound(e: Expr, s: Symbol, env: Env)
    requires Consistent(env) && s.Truth() && DependsSymbol(e, s)
    ensures Value(e, env) != NO ==> Curr(s, env) != NO
  {
    match e
    case And(l, r) =>
      if DependsSymbol(l, s) { DependsSymbolSound(l, s, env); } else { DependsSymbolSound(r, s, env); }
    case Cmp(_, _, _) => TestValues(s, env);
    case _ =>
  }
}
