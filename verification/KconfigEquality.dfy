/** Unit elimination, and equality of expressions modulo reordering (kconf/expr.c:140-385).

    The source rewrites two disjoint trees through `struct expr **`; a pair of trees in, a pair of
    trees out, says the same. Termination of the mutual recursion is part of what is verified.
 */
module KconfigEquality {
  import opened KconfigExpr

  /** The two connectives that are walked as one level. */
  datatype Junction = Conj | Disj

  predicate IsOp(op: Junction, e: Expr) {
    if op.Conj? then e.And? else e.Or?
  }

  predicate IsJunction(e: Expr) { e.And? || e.Or? }

  function OpOf(e: Expr): Junction
    requires IsJunction(e)
  {
    if e.And? then Conj else Disj
  }

  function Join(op: Junction, l: Expr, r: Expr): Expr {
    if op.Conj? then And(l, r) else Or(l, r)
  }

  function Unit(op: Junction): Expr { if op.Conj? then Sym(Yes) else Sym(No) }

  function Apply(op: Junction, a: Tri, b: Tri): Tri {
    if op.Conj? then Min(a, b) else Max(a, b)
  }

  /** Same `e->type`. */
  predicate SameKind(e1: Expr, e2: Expr) {
    match e1
    case Sym(_) => e2.Sym?
    case Not(_) => e2.Not?
    case And(_, _) => e2.And?
    case Or(_, _) => e2.Or?
    case Cmp(op, _, _) => e2.Cmp? && e2.op == op
  }

  // ----- expr_eliminate_yn -----

  function EliminateYn(e: Expr): Expr {
    match e
    case And(l, r) =>
      var a, b := EliminateYn(l), EliminateYn(r);
      if a == Sym(No) then Sym(No)
      else if a == Sym(Yes) then b
      else if b == Sym(No) then Sym(No)
      else if b == Sym(Yes) then a
      else And(a, b)
    case Or(l, r) =>
      var a, b := EliminateYn(l), EliminateYn(r);
      if a == Sym(No) then b
      else if a == Sym(Yes) then Sym(Yes)
      else if b == Sym(No) then a
      else if b == Sym(Yes) then Sym(Yes)
      else Or(a, b)
    case _ => e
  }

  /** No operand of a connective is the constant y or n. */
  predicate YnFree(e: Expr) {
    IsJunction(e) ==>
      && e.left !in {Sym(Yes), Sym(No)} && e.right !in {Sym(Yes), Sym(No)}
      && YnFree(e.left) && YnFree(e.right)
  }

  /** Some connective has its own unit as an operand. */
  predicate HasUnit(e: Expr) {
    IsJunction(e) &&
    (e.left == Unit(OpOf(e)) || e.right == Unit(OpOf(e)) || HasUnit(e.left) || HasUnit(e.right))
  }

  lemma {:induction false} EliminateYnValue(e: Expr, env: Env)
    ensures Value(EliminateYn(e), env) == Value(e, env)
  {
    if IsJunction(e) {
      EliminateYnValue(e.left, env);
      EliminateYnValue(e.right, env);
    }
  }

  lemma {:induction false} EliminateYnShape(e: Expr)
    ensures YnFree(EliminateYn(e))
    ensures Size(EliminateYn(e)) <= Size(e)
    ensures HasUnit(e) ==> Size(EliminateYn(e)) < Size(e)
    ensures NotOverSymbols(e) ==> NotOverSymbols(EliminateYn(e))
  {
    if IsJunction(e) {
      EliminateYnShape(e.left);
      EliminateYnShape(e.right);
    }
  }

  lemma {:induction false} EliminateYnLiterals(e: Expr)
    ensures Literals(EliminateYn(e)) <= Literals(e)
  {
    if IsJunction(e) {
      EliminateYnLiterals(e.left);
      EliminateYnLiterals(e.right);
    }
  }

  /** What is left alone is exactly what has nothing to remove. */
  lemma EliminateYnFixed(e: Expr)
    ensures EliminateYn(e) == e <==> YnFree(e)
  {
    EliminateYnShape(e);
    if YnFree(e) && IsJunction(e) {
      EliminateYnFixed(e.left);
      EliminateYnFixed(e.right);
    }
  }

  // ----- expr_eq, expr_eliminate_eq -----

  predicate BothYn(e1: Expr, e2: Expr) { e1 == e2 && e1 in {Sym(Yes), Sym(No)} }

  /** __expr_eliminate_eq: equal leaves, one in each tree, are both replaced by the unit. */
  function EliminateEqWalk(op: Junction, e1: Expr, e2: Expr): (r: (Expr, Expr))
    ensures Size(r.0) <= Size(e1) && Size(r.1) <= Size(e2)
    ensures IsOp(op, r.0) == IsOp(op, e1) && IsOp(op, r.1) == IsOp(op, e2)
    ensures !IsOp(op, e1) && !IsOp(op, e2) ==> r == (e1, e2) || r == (Unit(op), Unit(op))
    decreases Size(e1) + Size(e2), if IsOp(op, e1) || IsOp(op, e2) then 0 else 3
  {
    if IsOp(op, e1) then
      var (l, m) := EliminateEqWalk(op, e1.left, e2);
      var (r, b) := EliminateEqWalk(op, e1.right, m);
      (Join(op, l, r), b)
    else if IsOp(op, e2) then
      var (m, l) := EliminateEqWalk(op, e1, e2.left);
      var (a, r) := EliminateEqWalk(op, m, e2.right);
      (a, Join(op, l, r))
    else if BothYn(e1, e2) || !ExprEq(e1, e2) then (e1, e2)
    else (Unit(op), Unit(op))
  }

  function EliminateEq(e1: Expr, e2: Expr): (r: (Expr, Expr))
    decreases Size(e1) + Size(e2), 1
  {
    var (a, b) := if IsJunction(e1) then EliminateEqWalk(OpOf(e1), e1, e2) else (e1, e2);
    var (c, d) := if !SameKind(a, b) && IsJunction(b) then EliminateEqWalk(OpOf(b), a, b) else (a, b);
    (EliminateYn(c), EliminateYn(d))
  }

  predicate ExprEq(e1: Expr, e2: Expr)
    decreases Size(e1) + Size(e2), 2
  {
    SameKind(e1, e2) &&
    match e1
    case Cmp(_, l, r) => l == e2.lhs && r == e2.rhs
    case Sym(s) => s == e2.sym
    case Not(a) => ExprEq(a, e2.arg)
    case _ =>
      var (a, b) := EliminateEq(e1, e2);
      a.Sym? && b.Sym? && a.sym == b.sym
  }

  /** `e` means `k op rest` in every environment. */
  ghost predicate Splits(op: Junction, e: Expr, k: Expr, rest: Expr) {
    forall env: Env :: Value(e, env) == Apply(op, Value(k, env), Value(rest, env))
  }

  /** Taking k1 out of l and e, then k2 out of r and what is left of e, takes both out of l op r and e. */
  lemma {:induction false} SplitsCompose(op: Junction, l: Expr, r: Expr, e: Expr, k1: Expr, k2: Expr,
                      l': Expr, r': Expr, m: Expr, e': Expr)
    requires Splits(op, l, k1, l') && Splits(op, e, k1, m)
    requires Splits(op, r, k2, r') && Splits(op, m, k2, e')
    ensures Splits(op, Join(op, l, r), Join(op, k1, k2), Join(op, l', r'))
    ensures Splits(op, e, Join(op, k1, k2), e')
  {
    forall env: Env
      ensures Value(Join(op, l, r), env) == Apply(op, Value(Join(op, k1, k2), env), Value(Join(op, l', r'), env))
      ensures Value(e, env) == Apply(op, Value(Join(op, k1, k2), env), Value(e', env))
    {
      ValueJoin(op, l, r, env);
      ValueJoin(op, k1, k2, env);
      ValueJoin(op, l', r', env);
      Regroup(op, Value(k1, env), Value(l', env), Value(k2, env), Value(r', env));
      Regroup(op, Value(k1, env), Value(k1, env), Value(k2, env), Value(e', env));
    }
  }

  lemma ValueJoin(op: Junction, l: Expr, r: Expr, env: Env)
    ensures Value(Join(op, l, r), env) == Apply(op, Value(l, env), Value(r, env))
  {}

  lemma Regroup(op: Junction, a: Tri, b: Tri, c: Tri, d: Tri)
    ensures Apply(op, Apply(op, a, b), Apply(op, c, d)) == Apply(op, Apply(op, a, c), Apply(op, b, d))
    ensures Apply(op, a, Apply(op, c, d)) == Apply(op, Apply(op, a, c), d)
  {}

  /** The walk takes one common part out of both trees. */
  lemma {:induction false} WalkSplits(op: Junction, e1: Expr, e2: Expr) returns (k: Expr)
    ensures Splits(op, e1, k, EliminateEqWalk(op, e1, e2).0)
    ensures Splits(op, e2, k, EliminateEqWalk(op, e1, e2).1)
    decreases Size(e1) + Size(e2), if IsOp(op, e1) || IsOp(op, e2) then 0 else 3
  {
    hide Splits, ExprEq, Value;
    if IsOp(op, e1) {
      var (l, m) := EliminateEqWalk(op, e1.left, e2);
      var (r, b) := EliminateEqWalk(op, e1.right, m);
      var k1 := WalkSplits(op, e1.left, e2);
      var k2 := WalkSplits(op, e1.right, m);
      SplitsCompose(op, e1.left, e1.right, e2, k1, k2, l, r, m, b);
      k := Join(op, k1, k2);
    } else if IsOp(op, e2) {
      var (m, l) := EliminateEqWalk(op, e1, e2.left);
      var (a, r) := EliminateEqWalk(op, m, e2.right);
      var k1 := WalkSplits(op, e1, e2.left);
      var k2 := WalkSplits(op, m, e2.right);
      SplitsCompose(op, e2.left, e2.right, e1, k1, k2, l, r, m, a);
      k := Join(op, k1, k2);
    } else if BothYn(e1, e2) || !ExprEq(e1, e2) {
      k := Unit(op);
      NothingSplits(op, e1);
      NothingSplits(op, e2);
    } else {
      ExprEqSound(e1, e2);
      k := e1;
      AllSplits(op, e1, e2);
    }
  }

  lemma NothingSplits(op: Junction, e: Expr)
    ensures Splits(op, e, Unit(op), e)
  {}

  lemma AllSplits(op: Junction, e1: Expr, e2: Expr)
    requires forall env: Env :: Value(e1, env) == Value(e2, env)
    ensures Splits(op, e1, e1, Unit(op)) && Splits(op, e2, e1, Unit(op))
  {}

  /** expr_eliminate_eq writes both inputs as `common op rest`, for one and the same op. */
  lemma EliminateEqSplits(e1: Expr, e2: Expr) returns (op: Junction, k: Expr)
    ensures Splits(op, e1, k, EliminateEq(e1, e2).0)
    ensures Splits(op, e2, k, EliminateEq(e1, e2).1)
    decreases Size(e1) + Size(e2), 1
  {
    forall e: Expr, env: Env ensures Value(EliminateYn(e), env) == Value(e, env) {
      EliminateYnValue(e, env);
    }
    op, k := Conj, Unit(Conj);
    if IsJunction(e1) {
      op := OpOf(e1);
      k := WalkSplits(op, e1, e2);
      var (a, b) := EliminateEqWalk(op, e1, e2);
      if !SameKind(a, b) && IsJunction(b) {
        UntouchedOtherKind(op, e1, e2);
        op := OpOf(b);
        k := WalkSplits(op, a, b);
      }
    } else if IsJunction(e2) {
      op := OpOf(e2);
      k := WalkSplits(op, e1, e2);
    }
  }

  /** A walk against a single leaf either consumes that leaf or changes nothing. */
  lemma UntouchedOtherKind(op: Junction, e1: Expr, e2: Expr)
    requires !IsOp(op, e2)
    ensures EliminateEqWalk(op, e1, e2).1 != Unit(op) ==> EliminateEqWalk(op, e1, e2) == (e1, e2)
    ensures EliminateEqWalk(op, e1, e2).1 in {e2, Unit(op)}
    decreases e1
  {
    if IsOp(op, e1) {
      UntouchedOtherKind(op, e1.left, e2);
      UntouchedOtherKind(op, e1.right, EliminateEqWalk(op, e1.left, e2).1);
    }
  }

  /** Expressions that compare equal mean the same in every environment. */
  lemma ExprEqSound(e1: Expr, e2: Expr)
    requires ExprEq(e1, e2)
    ensures forall env: Env :: Value(e1, env) == Value(e2, env)
    decreases Size(e1) + Size(e2), 2
  {
    match e1
    case Sym(_) =>
    case Cmp(_, _, _) =>
    case Not(a) => ExprEqSound(a, e2.arg);
    case _ => var _, _ := EliminateEqSplits(e1, e2);
  }

  // ----- nothing common is left -----

  function Leaves(op: Junction, e: Expr): set<Expr> {
    if IsOp(op, e) then Leaves(op, e.left) + Leaves(op, e.right) else {e}
  }

  ghost predicate NoCommonLeaf(op: Junction, e1: Expr, e2: Expr) {
    forall a, b :: a in Leaves(op, e1) && b in Leaves(op, e2) && ExprEq(a, b) ==> BothYn(a, b)
  }

  /** After the walk no operand of one tree equals an operand of the other, constants y, n aside. */
  lemma {:induction false} WalkLeavesNothingCommon(op: Junction, e1: Expr, e2: Expr)
    ensures NoCommonLeaf(op, EliminateEqWalk(op, e1, e2).0, EliminateEqWalk(op, e1, e2).1)
    ensures Leaves(op, EliminateEqWalk(op, e1, e2).0) <= Leaves(op, e1) + {Unit(op)}
    ensures Leaves(op, EliminateEqWalk(op, e1, e2).1) <= Leaves(op, e2) + {Unit(op)}
    decreases Size(e1) + Size(e2)
  {
    if IsOp(op, e1) {
      hide NoCommonLeaf, ExprEq, BothYn;
      var (l, m) := EliminateEqWalk(op, e1.left, e2);
      var (r, b) := EliminateEqWalk(op, e1.right, m);
      WalkLeavesNothingCommon(op, e1.left, e2);
      WalkLeavesNothingCommon(op, e1.right, m);
      StillNoCommonLeaf(op, l, m, b);
      JoinNoCommonLeaf(op, l, r, b);
    } else if IsOp(op, e2) {
      hide NoCommonLeaf, ExprEq, BothYn;
      var (m, l) := EliminateEqWalk(op, e1, e2.left);
      var (a, r) := EliminateEqWalk(op, m, e2.right);
      WalkLeavesNothingCommon(op, e1, e2.left);
      WalkLeavesNothingCommon(op, m, e2.right);
      StillNoCommonLeafFirst(op, m, a, l);
      JoinNoCommonLeafSecond(op, a, l, r);
    }
  }

  lemma JoinNoCommonLeaf(op: Junction, l: Expr, r: Expr, e: Expr)
    requires NoCommonLeaf(op, l, e) && NoCommonLeaf(op, r, e)
    ensures NoCommonLeaf(op, Join(op, l, r), e)
  {}

  lemma JoinNoCommonLeafSecond(op: Junction, e: Expr, l: Expr, r: Expr)
    requires NoCommonLeaf(op, e, l) && NoCommonLeaf(op, e, r)
    ensures NoCommonLeaf(op, e, Join(op, l, r))
  {}

  lemma StillNoCommonLeafFirst(op: Junction, e1: Expr, e2: Expr, e3: Expr)
    requires NoCommonLeaf(op, e1, e3) && Leaves(op, e2) <= Leaves(op, e1) + {Unit(op)}
    ensures NoCommonLeaf(op, e2, e3)
  {}

  lemma StillNoCommonLeaf(op: Junction, e1: Expr, e2: Expr, e3: Expr)
    requires NoCommonLeaf(op, e1, e2)
    requires Leaves(op, e3) <= Leaves(op, e2) + {Unit(op)}
    ensures NoCommonLeaf(op, e1, e3)
  {}
}
