/** Removing constant operands, cancelling equal operands, and the comparison of
    expressions built on the two (expr.c). */
module Equality {
  import opened Tristates
  import opened Exprs

  /** No `&&` or `||` outside a negation has y or n as an operand. */
  predicate YnFree(e: Expr) {
    e.Bin? ==>
      && !IsYn(e.left) && !IsYn(e.right)
      && YnFree(e.left) && YnFree(e.right)
  }

  predicate IsYn(e: Expr) { e.Sym? && (e.sym.SymYes? || e.sym.SymNo?) }

  /** expr_eliminate_yn. */
  function EliminateYn(e: Expr): (r: Expr)
    ensures YnFree(r)
    ensures Size(r) <= Size(e)
    ensures !YnFree(e) ==> Size(r) < Size(e)
    ensures YnFree(e) ==> r == e
  {
    match e
    case Bin(op, l, r) =>
      var l' := EliminateYn(l);
      var r' := EliminateYn(r);
      if l' == Sym(Absorbing(op)) then Sym(Absorbing(op))
      else if l' == Sym(Identity(op)) then r'
      else if r' == Sym(Absorbing(op)) then Sym(Absorbing(op))
      else if r' == Sym(Identity(op)) then l'
      else Bin(op, l', r')
    case _ => e
  }

  /** Removing constant operands keeps the value. */
  lemma {:induction false} EliminateYnValue(e: Expr, env: Env)
    requires FixesYmn(env)
    ensures Value(EliminateYn(e), env) == Value(e, env)
  {
    if e.Bin? {
      var l, r := EliminateYn(e.left), EliminateYn(e.right);
      EliminateYnValue(e.left, env);
      EliminateYnValue(e.right, env);
      assert Value(e, env) == Apply(e.op, Value(l, env), Value(r, env));
      ConstantOperand(e.op, l, env);
      ConstantOperand(e.op, r, env);
    }
  }

  /** What a constant operand does to the other one. */
  lemma ConstantOperand(op: Op, e: Expr, env: Env)
    requires FixesYmn(env)
    ensures e == Sym(Identity(op)) ==>
              forall v: Tristate :: Apply(op, Value(e, env), v) == v == Apply(op, v, Value(e, env))
    ensures e == Sym(Absorbing(op)) ==>
              forall v: Tristate :: Apply(op, Value(e, env), v) == Value(e, env) == Apply(op, v, Value(e, env))
  {}

  /** Rank of a call of CancelPairs: with an operand to split it runs below
      CancelBoth, at a pair of operands it runs above ExprEq. */
  function CancelRank(op: Op, a: Expr, b: Expr): nat {
    if IsOp(op, a) || IsOp(op, b) then 0 else 4
  }

  predicate IsOp(op: Op, e: Expr) { e.Bin? && e.op == op }

  /** __expr_eliminate_eq: both trees are rewritten, so both come back. */
  function CancelPairs(op: Op, a: Expr, b: Expr): (r: (Expr, Expr))
    ensures Size(r.0) <= Size(a) && Size(r.1) <= Size(b)
    ensures IsOp(op, a) ==> IsOp(op, r.0)
    ensures IsOp(op, b) ==> IsOp(op, r.1)
    decreases Size(a) + Size(b), CancelRank(op, a, b)
  {
    if IsOp(op, a) then
      var x := CancelPairs(op, a.left, b);
      var y := CancelPairs(op, a.right, x.1);
      (Bin(op, x.0, y.0), y.1)
    else if IsOp(op, b) then
      var x := CancelPairs(op, a, b.left);
      var y := CancelPairs(op, x.0, b.right);
      (y.0, Bin(op, x.1, y.1))
    else if a == b && IsYn(a) then (a, b)
    else if !ExprEq(a, b) then (a, b)
    else (Sym(Identity(op)), Sym(Identity(op)))
  }

  /** expr_eliminate_eq, before its two calls of expr_eliminate_yn. */
  function CancelBoth(a: Expr, b: Expr): (r: (Expr, Expr))
    ensures Size(r.0) <= Size(a) && Size(r.1) <= Size(b)
    decreases Size(a) + Size(b), 1
  {
    var x := if a.Bin? then CancelPairs(a.op, a, b) else (a, b);
    if x.1.Bin? && !(x.0.Bin? && x.0.op == x.1.op) then CancelPairs(x.1.op, x.0, x.1) else x
  }

  /** expr_eliminate_eq on two expressions that are not NULL. */
  function EliminateEq(a: Expr, b: Expr): (r: (Expr, Expr))
    decreases Size(a) + Size(b), 2
  {
    var x := CancelBoth(a, b);
    (EliminateYn(x.0), EliminateYn(x.1))
  }

  /** expr_eq. */
  predicate ExprEq(a: Expr, b: Expr)
    decreases Size(a) + Size(b), 3
  {
    match (a, b)
    case (Cmp(_, _, _), Cmp(_, _, _)) => a == b
    case (Sym(_), Sym(_)) => a == b
    case (Not(x), Not(y)) => ExprEq(x, y)
    case (Bin(op, _, _), Bin(op', _, _)) =>
      op == op' &&
      var x := EliminateEq(a, b);
      x.0.Sym? && x.1.Sym? && x.0.sym == x.1.sym
    case _ => false
  }

  /** `c` gives back the values of both arguments from those of both results. */
  ghost predicate Restores(op: Op, a: Expr, b: Expr, r: (Expr, Expr), c: Tristate, env: Env) {
    && Value(a, env) == Apply(op, Value(r.0, env), c)
    && Value(b, env) == Apply(op, Value(r.1, env), c)
  }

  /** Cancelling against the left, then against the right half of an operand. */
  lemma RestoresSplit(op: Op, l: Expr, r: Expr, b: Expr, x: (Expr, Expr), y: (Expr, Expr),
                      c1: Tristate, c2: Tristate, env: Env)
    requires Restores(op, l, b, x, c1, env)
    requires Restores(op, r, x.1, y, c2, env)
    ensures Restores(op, Bin(op, l, r), b, (Bin(op, x.0, y.0), y.1), Apply(op, c1, c2), env)
  {
    Regroup(op, Value(x.0, env), c1, Value(y.0, env), c2);
    Regroup(op, Value(y.1, env), c2, c1, c1);
    Regroup(op, c1, c2, c1, c2);
  }

  /** The operands that were cancelled were worth the same on both sides. */
  lemma {:induction false} CancelPairsSound(op: Op, a: Expr, b: Expr, env: Env) returns (c: Tristate)
    requires WellTyped(env)
    ensures Restores(op, a, b, CancelPairs(op, a, b), c, env)
    decreases Size(a) + Size(b), CancelRank(op, a, b), 0
  {
    if IsOp(op, a) {
      var x := CancelPairs(op, a.left, b);
      var y := CancelPairs(op, a.right, x.1);
      var c1 := CancelPairsSound(op, a.left, b, env);
      var c2 := CancelPairsSound(op, a.right, x.1, env);
      c := Apply(op, c1, c2);
      RestoresSplit(op, a.left, a.right, b, x, y, c1, c2, env);
    } else if IsOp(op, b) {
      var x := CancelPairs(op, a, b.left);
      var y := CancelPairs(op, x.0, b.right);
      var c1 := CancelPairsSound(op, a, b.left, env);
      var c2 := CancelPairsSound(op, x.0, b.right, env);
      c := Apply(op, c1, c2);
      RestoresSplit(op, b.left, b.right, a, (x.1, x.0), (y.1, y.0), c1, c2, env);
    } else if !(a == b && IsYn(a)) && ExprEq(a, b) {
      ExprEqSound(a, b, env);
      c := Value(a, env);
      ConstantOperand(op, Sym(Identity(op)), env);
    } else {
      c := env.tri(Identity(op));
      ConstantOperand(op, Sym(Identity(op)), env);
    }
  }

  /** Two pairs of values with the first pair computed from the second by one
      monotone function compare at least as the second pair does. */
  ghost predicate Follows(a: Tristate, b: Tristate, a': Tristate, b': Tristate) {
    (a' <= b' ==> a <= b) && (a' >= b' ==> a >= b)
  }

  lemma {:induction false} CancelPairsFollows(op: Op, a: Expr, b: Expr, env: Env)
    requires WellTyped(env)
    ensures var r := CancelPairs(op, a, b);
            Follows(Value(a, env), Value(b, env), Value(r.0, env), Value(r.1, env))
    decreases Size(a) + Size(b), CancelRank(op, a, b), 1
  {
    var r := CancelPairs(op, a, b);
    var c := CancelPairsSound(op, a, b, env);
    if Value(r.0, env) <= Value(r.1, env) { Monotone(op, Value(r.0, env), Value(r.1, env), c); }
    if Value(r.0, env) >= Value(r.1, env) { Monotone(op, Value(r.1, env), Value(r.0, env), c); }
  }

  /** However what expr_eliminate_eq leaves compares, its arguments compare so. */
  lemma {:induction false} EliminateEqSound(a: Expr, b: Expr, env: Env)
    requires WellTyped(env)
    ensures var r := EliminateEq(a, b);
            Follows(Value(a, env), Value(b, env), Value(r.0, env), Value(r.1, env))
    decreases Size(a) + Size(b), 2
  {
    var x := if a.Bin? then CancelPairs(a.op, a, b) else (a, b);
    if a.Bin? { CancelPairsFollows(a.op, a, b, env); }
    var y := CancelBoth(a, b);
    if x.1.Bin? && !(x.0.Bin? && x.0.op == x.1.op) {
      CancelPairsFollows(x.1.op, x.0, x.1, env);
    }
    EliminateYnValue(y.0, env);
    EliminateYnValue(y.1, env);
  }

  /** expr_eq is sound: equal expressions have equal values everywhere. */
  lemma {:induction false} ExprEqSound(a: Expr, b: Expr, env: Env)
    requires WellTyped(env) && ExprEq(a, b)
    ensures Value(a, env) == Value(b, env)
    decreases Size(a) + Size(b), 3
  {
    if a.Not? {
      ExprEqSound(a.arg, b.arg, env);
    } else if a.Bin? {
      EliminateEqSound(a, b, env);
    }
  }
}
