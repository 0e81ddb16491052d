/** expr_eq does find equal expressions equal: walking a tree against a copy of itself cancels
    every operand, although each cancelled operand keeps being compared with the later ones
    (kconf/expr.c:149-185, 248-286).
 */
module KconfigReflexive {
  import opened KconfigExpr
  import opened KconfigEquality
  import opened KconfigDups

  predicate IsYn(e: Expr) { e in {Sym(Yes), Sym(No)} }

  /** All operands of the level are the constants y or n. */
  predicate Cleared(op: Junction, e: Expr) {
    if IsOp(op, e) then Cleared(op, e.left) && Cleared(op, e.right) else IsYn(e)
  }

  function Clear(op: Junction, e: Expr): (r: Expr)
    ensures Cleared(op, r) && IsOp(op, r) == IsOp(op, e)
  {
    if IsOp(op, e) then Join(op, Clear(op, e.left), Clear(op, e.right))
    else if IsYn(e) then e else Unit(op)
  }

  lemma {:induction false} ClearedIsConstant(op: Junction, e: Expr)
    requires Cleared(op, e)
    ensures IsYn(EliminateYn(e))
  {
    if IsOp(op, e) {
      ClearedIsConstant(op, e.left);
      ClearedIsConstant(op, e.right);
    }
  }

  /** A constant y or n is never cancelled, */
  lemma {:induction false} ScanYn(op: Junction, x: Expr, e: Expr)
    requires IsYn(x)
    ensures EliminateEqWalk(op, x, e) == (x, e)
  {
    if IsOp(op, e) {
      ScanYn(op, x, e.left);
      ScanYn(op, x, e.right);
    }
  }

  /** and nothing is cancelled against one. */
  lemma {:induction false} ScanCleared(op: Junction, x: Expr, e: Expr)
    requires !IsOp(op, x) && Cleared(op, e)
    ensures EliminateEqWalk(op, x, e) == (x, e)
  {
    if IsOp(op, e) {
      ScanCleared(op, x, e.left);
      ScanCleared(op, x, e.right);
    }
  }

  /** Everything to the left of position `q` has been cancelled already. */
  predicate LeftCleared(op: Junction, e: Expr, q: Path) {
    q == [] ||
    (IsOp(op, e) && (q[0] ==> Cleared(op, e.left)) && LeftCleared(op, Child(e, q[0]), q[1..]))
  }

  lemma {:induction false} LeftClearedExtend(op: Junction, e: Expr, q: Path, x: Expr)
    requires LeftCleared(op, e, q) && Spine(op, e, q) && ValidPath(e, q) && IsOp(op, Get(e, q)) && Cleared(op, x)
    ensures LeftCleared(op, e, q + [false])
    ensures Spine(op, e, q + [false]) && ValidPath(e, q + [false])
    ensures var m := Put(e, q + [false], x);
            LeftCleared(op, m, q + [true]) && Spine(op, m, q + [true]) && ValidPath(m, q + [true]) &&
            m == Put(e, q, Join(op, x, Get(e, q).right)) && Get(m, q + [true]) == Get(e, q).right
  {
    if q != [] {
      assert (q + [false])[1..] == q[1..] + [false] && (q + [true])[1..] == q[1..] + [true];
      LeftClearedExtend(op, Child(e, q[0]), q[1..], x);
    }
  }

  /** One operand met at position `q` of the other tree. */
  lemma {:induction false} ScanOperand(op: Junction, x: Expr, e: Expr, q: Path)
    requires !IsOp(op, x) && !IsYn(x) && ExprEq(x, x)
    requires LeftCleared(op, e, q) && Spine(op, e, q) && ValidPath(e, q) && Get(e, q) == x
    ensures EliminateEqWalk(op, x, e) == (Unit(op), Put(e, q, Unit(op)))
  {
    if q != [] {
      if q[0] {
        ScanCleared(op, x, e.left);
        ScanOperand(op, x, e.right, q[1..]);
      } else {
        ScanOperand(op, x, e.left, q[1..]);
        ScanYn(op, Unit(op), e.right);
      }
    }
  }

  lemma {:induction false} WalkSelf(op: Junction, t: Expr, e: Expr, q: Path)
    requires LeftCleared(op, e, q) && Spine(op, e, q) && ValidPath(e, q) && Get(e, q) == t
    requires forall x :: x in Leaves(op, t) ==> ExprEq(x, x)
    ensures EliminateEqWalk(op, t, e) == (Clear(op, t), Put(e, q, Clear(op, t)))
    decreases t
  {
    if IsOp(op, t) {
      var a, b := Clear(op, t.left), Clear(op, t.right);
      LeftClearedExtend(op, e, q, a);
      SpineExtend(op, e, q, false);
      WalkSelf(op, t.left, e, q + [false]);
      var m := Put(e, q + [false], a);
      WalkSelf(op, t.right, m, q + [true]);
      GetPut(e, q, Join(op, a, t.right), Join(op, a, b));
      assert Put(Join(op, a, t.right), [true], b) == Join(op, a, b);
      Nested(m, q, [true], b);
    } else if IsYn(t) {
      ScanYn(op, t, e);
      GetPut(e, q, t, t);
    } else {
      assert t in Leaves(op, t);
      ScanOperand(op, t, e, q);
    }
  }

  lemma {:induction false} LeavesReflexive(op: Junction, t: Expr)
    requires forall f: Expr | Size(f) < Size(t) :: ExprEq(f, f)
    requires IsOp(op, t)
    ensures forall x :: x in Leaves(op, t) ==> ExprEq(x, x)
  {
    forall x | x in Leaves(op, t) ensures Size(x) < Size(t) {
      LeafSmaller(op, t, x);
    }
  }

  lemma {:induction false} LeafSmaller(op: Junction, t: Expr, x: Expr)
    requires x in Leaves(op, t)
    ensures Size(x) <= Size(t) && (IsOp(op, t) ==> Size(x) < Size(t))
  {
    if IsOp(op, t) {
      if x in Leaves(op, t.left) { LeafSmaller(op, t.left, x); } else { LeafSmaller(op, t.right, x); }
    }
  }

  lemma {:induction false} ExprEqReflexive(e: Expr)
    ensures ExprEq(e, e)
    decreases Size(e)
  {
    match e
    case Sym(_) =>
    case Cmp(_, _, _) =>
    case Not(a) => ExprEqReflexive(a);
    case _ =>
      forall f: Expr | Size(f) < Size(e) ensures ExprEq(f, f) { ExprEqReflexive(f); }
      var op := OpOf(e);
      LeavesReflexive(op, e);
      WalkSelf(op, e, e, []);
      ClearedIsConstant(op, Clear(op, e));
  }
}
