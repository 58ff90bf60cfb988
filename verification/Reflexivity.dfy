/** expr_eq recognises every expression as equal to itself: each operand meets
    its own copy before any other live one, and all that is left are constants. */
module Reflexivity {
  import opened Exprs
  import opened Equality

  /** The operands of a chain of one operator, left to right. */
  function Operands(op: Op, e: Expr): (s: seq<Expr>)
    ensures |s| >= 1
  {
    if IsOp(op, e) then Operands(op, e.left) + Operands(op, e.right) else [e]
  }

  ghost predicate AllYn(s: seq<Expr>) { forall i :: 0 <= i < |s| ==> IsYn(s[i]) }

  lemma AllYnConcat(a: seq<Expr>, b: seq<Expr>)
    ensures AllYn(a + b) <==> AllYn(a) && AllYn(b)
  {
    if AllYn(a + b) {
      assert forall i :: 0 <= i < |a| ==> (a + b)[i] == a[i];
      assert forall i :: 0 <= i < |b| ==> (a + b)[|a| + i] == b[i];
    }
  }

  /** A constant y or n cancels nothing, */
  lemma {:induction false} DeadLeft(op: Op, d: Expr, t: Expr)
    requires IsYn(d)
    ensures CancelPairs(op, d, t) == (d, t)
  {
    if IsOp(op, t) {
      DeadLeft(op, d, t.left);
      DeadLeft(op, d, t.right);
    }
  }

  /** and is cancelled by nothing. */
  lemma {:induction false} DeadRight(op: Op, x: Expr, t: Expr)
    requires !IsOp(op, x) && AllYn(Operands(op, t))
    ensures CancelPairs(op, x, t) == (x, t)
  {
    if IsOp(op, t) {
      AllYnConcat(Operands(op, t.left), Operands(op, t.right));
      DeadRight(op, x, t.left);
      DeadRight(op, x, t.right);
    } else {
      assert Operands(op, t)[0] == t;
    }
  }

  lemma UpdateFront(l: seq<Expr>, r: seq<Expr>, k: nat, x: Expr)
    requires k < |l|
    ensures (l + r)[k] == l[k] && (l + r)[..k] == l[..k] && (l + r)[k := x] == l[k := x] + r
  {}

  lemma UpdateBack(l: seq<Expr>, r: seq<Expr>, k: nat, x: Expr)
    requires |l| <= k < |l + r|
    ensures (l + r)[k] == r[k - |l|] && (l + r)[..k] == l + r[..k - |l|] && (l + r)[k := x] == l + r[k - |l| := x]
  {}

  /** An operand whose copy is the first live operand of the chain `t`. */
  lemma {:induction false} Hit(op: Op, x: Expr, t: Expr, k: nat)
    requires !IsOp(op, x) && !IsYn(x) && ExprEq(x, x)
    requires k < |Operands(op, t)| && Operands(op, t)[k] == x && AllYn(Operands(op, t)[..k])
    ensures CancelPairs(op, x, t).0 == Sym(Identity(op))
    ensures Operands(op, CancelPairs(op, x, t).1) == Operands(op, t)[k := Sym(Identity(op))]
  {
    var id := Sym(Identity(op));
    if IsOp(op, t) {
      var l, r := Operands(op, t.left), Operands(op, t.right);
      if k < |l| {
        UpdateFront(l, r, k, id);
        Hit(op, x, t.left, k);
        DeadLeft(op, id, t.right);
      } else {
        UpdateBack(l, r, k, id);
        AllYnConcat(l, r[..k - |l|]);
        DeadRight(op, x, t.left);
        Hit(op, x, t.right, k - |l|);
      }
    }
  }

  /** The chain `e` against a chain that holds a copy of it behind the operands
      `done`, which are constant already: both copies end up the same constants. */
  lemma {:induction false} CancelCopy(op: Op, e: Expr, t: Expr, done: seq<Expr>, rest: seq<Expr>)
    requires Operands(op, t) == done + Operands(op, e) + rest && AllYn(done)
    ensures var r := CancelPairs(op, e, t);
            AllYn(Operands(op, r.0)) && Operands(op, r.1) == done + Operands(op, r.0) + rest
    decreases Size(e), if IsOp(op, e) then 0 else 2
  {
    if IsOp(op, e) {
      var l, r := Operands(op, e.left), Operands(op, e.right);
      assert done + (l + r) + rest == done + l + (r + rest);
      CancelCopy(op, e.left, t, done, r + rest);
      var x := CancelPairs(op, e.left, t);
      var l' := Operands(op, x.0);
      assert done + l' + (r + rest) == (done + l') + r + rest;
      AllYnConcat(done, l');
      CancelCopy(op, e.right, x.1, done + l', rest);
      var r' := Operands(op, CancelPairs(op, e.right, x.1).0);
      AllYnConcat(l', r');
      assert (done + l') + r' + rest == done + (l' + r') + rest;
    } else if IsYn(e) {
      DeadLeft(op, e, t);
    } else {
      var s := done + [e] + rest;
      assert s[|done|] == e && s[..|done|] == done;
      ExprEqReflexive(e);
      Hit(op, e, t, |done|);
      assert s[|done| := Sym(Identity(op))] == done + [Sym(Identity(op))] + rest;
    }
  }

  /** A chain of constants reduces to one of them, fixed by its operands. */
  lemma {:induction false} ConstantChain(op: Op, e: Expr)
    requires AllYn(Operands(op, e))
    ensures EliminateYn(e) ==
            Sym(if Sym(Absorbing(op)) in Operands(op, e) then Absorbing(op) else Identity(op))
  {
    if IsOp(op, e) {
      AllYnConcat(Operands(op, e.left), Operands(op, e.right));
      ConstantChain(op, e.left);
      ConstantChain(op, e.right);
    } else {
      assert Operands(op, e)[0] == e;
    }
  }

  /** expr_eq is reflexive. */
  lemma {:induction false} ExprEqReflexive(e: Expr)
    ensures ExprEq(e, e)
    decreases Size(e), 1
  {
    if e.Not? {
      ExprEqReflexive(e.arg);
    } else if e.Bin? {
      var s := Operands(e.op, e);
      assert s == [] + s + [];
      CancelCopy(e.op, e, e, [], []);
      var r := CancelPairs(e.op, e, e);
      assert [] + Operands(e.op, r.0) + [] == Operands(e.op, r.0);
      ConstantChain(e.op, r.0);
      ConstantChain(e.op, r.1);
    }
  }
}
