/** expr_eliminate_dups as it runs: two pointers into one tree that is rewritten
    in place, and the count of rewritings that drives the loop. */
module Simplifier {
  import opened Tristates
  import opened Exprs
  import opened Equality
  import opened Transform
  import opened Joins
  import opened Paths
  import opened Dups
  import opened DupsLaws
  import opened CutLaws

  class Rewriter {
    var tree: Expr
    var transCount: nat

    constructor (e: Expr)
      ensures tree == e && transCount == 0
    {
      tree := e;
      transCount := 0;
    }

    /** expr_eliminate_dups1(type, ep1, ep2). */
    method EliminateDups1(op: Op, ep1: Path, ep2: Path)
      requires IsOp(op, tree) && OnChain(op, tree, ep1) && OnChain(op, tree, ep2)
      modifies this
      ensures var d := Dups1(op, old(tree), ep1, ep2);
              tree == d.0 && transCount == old(transCount) + d.1
      decreases Size(tree), Width(op, At(tree, ep1)) + Width(op, At(tree, ep2))
    {
      var e1, e2 := At(tree, ep1), At(tree, ep2);
      if IsOp(op, e1) {
        ChainStep(op, tree, ep1, L); ChainStep(op, tree, ep1, R);
        EliminateDups1(op, ep1 + [L], ep2);
        SameChainAt(op, old(tree), tree, ep1 + [R]); SameChainAt(op, old(tree), tree, ep2);
        EliminateDups1(op, ep1 + [R], ep2);
        return;
      }
      if IsOp(op, e2) {
        ChainStep(op, tree, ep2, L); ChainStep(op, tree, ep2, R);
        EliminateDups1(op, ep1, ep2 + [L]);
        SameChainAt(op, old(tree), tree, ep1); SameChainAt(op, old(tree), tree, ep2 + [R]);
        EliminateDups1(op, ep1, ep2 + [R]);
        return;
      }
      if ep1 == ep2 { return; }
      PutSize(tree, ep1, e1);
      PutAt(tree, ep1, e1);
      if e1.Bin? {
        var inner := new Rewriter(e1);
        inner.EliminateDups1(e1.op, [], []);
        tree := PutOperand(op, tree, ep1, inner.tree);
        transCount := transCount + inner.transCount;
        SameChainAt(op, old(tree), tree, ep2);
        PutElsewhere(op, old(tree), ep1, ep2, inner.tree);
      }
      var tmp := Join(op, At(tree, ep1), At(tree, ep2));
      if tmp.Some? {
        PutElsewhere(op, tree, ep1, ep2, Sym(Identity(op)));
        tree := Put(tree, ep1, Sym(Identity(op)));
        tree := Put(tree, ep2, tmp.value);
        transCount := transCount + 1;
      }
    }

    /** expr_eliminate_dups2(type, ep1, ep2). */
    method EliminateDups2(op: Op, ep1: Path, ep2: Path)
      requires IsOp(op, tree) && OnChain(op, tree, ep1) && OnChain(op, tree, ep2)
      modifies this
      ensures var d := Dups2(op, old(tree), ep1, ep2);
              tree == d.0 && transCount == old(transCount) + d.1
      decreases Size(tree), Width(op, At(tree, ep1)) + Width(op, At(tree, ep2)), 1
    {
      if IsOp(op, At(tree, ep1)) {
        ChainStep(op, tree, ep1, L); ChainStep(op, tree, ep1, R);
        EliminateDups2(op, ep1 + [L], ep2);
        SameChainAt(op, old(tree), tree, ep1 + [R]); SameChainAt(op, old(tree), tree, ep2);
        EliminateDups2(op, ep1 + [R], ep2);
        return;
      }
      if IsOp(op, At(tree, ep2)) {
        ChainStep(op, tree, ep2, L); ChainStep(op, tree, ep2, R);
        EliminateDups2(op, ep1, ep2 + [L]);
        SameChainAt(op, old(tree), tree, ep1); SameChainAt(op, old(tree), tree, ep2 + [R]);
        ghost var t1 := tree;
        EliminateDups2(op, ep1, ep2 + [R]);
        SameChainTrans(op, old(tree), t1, tree);
        SameChainAt(op, old(tree), tree, ep1); SameChainAt(op, old(tree), tree, ep2);
      }
      if ep1 == ep2 { return; }
      CutOperand(op, ep1, ep2);
    }

    /** The switch at the end of expr_eliminate_dups2. */
    method CutOperand(op: Op, ep1: Path, ep2: Path)
      requires IsOp(op, tree) && IsOperand(op, tree, ep1) && OnChain(op, tree, ep2)
      modifies this
      ensures var d := Cut(op, old(tree), ep1, ep2);
              tree == d.0 && transCount == old(transCount) + d.1
      decreases Size(tree), Width(op, At(tree, ep1)) + Width(op, At(tree, ep2)), 0
    {
      var e1 := At(tree, ep1);
      if !e1.Bin? { return; }
      PutSize(tree, ep1, e1);
      var inner := new Rewriter(e1);
      inner.EliminateDups2(e1.op, [], []);
      tree := PutOperand(op, tree, ep1, inner.tree);
      transCount := transCount + inner.transCount;
      SameChainAt(op, old(tree), tree, ep2);
      var rest := ExtractCommon(op, TransformExpr(Not(inner.tree)), At(tree, ep2));
      if rest.a == Sym(Identity(op)) {
        tree := PutOperand(op, tree, ep1, Sym(Absorbing(op)));
        transCount := transCount + 1;
      }
    }
  }

  /** One round of the loop: dups1, then dups2, both on the whole tree. */
  function Round(op: Op, t: Expr): (Expr, nat)
    requires IsOp(op, t)
  {
    var x := Dups1(op, t, [], []);
    var y := Dups2(op, x.0, [], []);
    (y.0, x.1 + y.1)
  }

  lemma RoundRefines(op: Op, t: Expr)
    requires IsOp(op, t)
    ensures Refines(t, Round(op, t).0)
  {
    forall env | WellTyped(env) ensures Decides(Value(t, env), Value(Round(op, t).0, env)) {
      Dups1Value(op, t, [], [], env);
      Dups2Decides(op, Dups1(op, t, [], []).0, [], [], env);
    }
  }

  lemma RoundCounts(op: Op, t: Expr)
    requires IsOp(op, t)
    ensures var r := Round(op, t);
            && Size(r.0) <= Size(t)
            && (r.1 == 0 ==> r.0 == t && DupFree(t) && CutFree(t))
            && (r.1 > 0 ==> !YnFree(r.0))
            && (NegatesSymbols(t) ==> NegatesSymbols(r.0))
  {
    var x := Dups1(op, t, [], []);
    Dups1Count(op, t, [], []);
    Dups2Count(op, x.0, [], []);
    if x.1 == 0 {
      NoMergeMeansDupFree(t);
      if Dups2(op, x.0, [], []).1 == 0 { NoCutMeansCutFree(t); }
    }
  }

  /** What expr_eliminate_dups makes of an expression: rounds, each followed by taking
      the constants out, until nothing is rewritten any more. */
  function Simplify(e: Expr): Expr
    decreases Size(e)
  {
    if !e.Bin? then e
    else
      var x := Round(e.op, e);
      RoundCounts(e.op, e);
      if x.1 == 0 then x.0 else Simplify(EliminateYn(x.0))
  }

  /** expr_eliminate_dups. The loop ends because every round that counts a
      rewriting leaves a constant that expr_eliminate_yn removes. */
  method EliminateDups(e: Expr) returns (r: Expr)
    ensures r == Simplify(e)
    ensures Refines(e, r)
    ensures Size(r) <= Size(e)
    ensures DupFree(r) && CutFree(r)
    ensures NegatesSymbols(e) ==> NegatesSymbols(r)
  {
    var w := new Rewriter(e);
    while true
      invariant Simplify(w.tree) == Simplify(e)
      invariant Refines(e, w.tree) && Size(w.tree) <= Size(e)
      invariant NegatesSymbols(e) ==> NegatesSymbols(w.tree)
      decreases Size(w.tree)
    {
      ghost var before := w.tree;
      w.transCount := 0;
      if w.tree.Bin? {
        var op := w.tree.op;
        w.EliminateDups1(op, [], []);
        ghost var middle := w.tree;
        w.EliminateDups2(op, [], []);
        RoundRefines(op, before);
        RoundCounts(op, before);
        RefinesTrans(e, before, w.tree);
      }
      if w.transCount == 0 { break; }
      RefinesYn(e, w.tree);
      if NegatesSymbols(w.tree) { NegatesYn(w.tree); }
      w.tree := EliminateYn(w.tree);
    }
    r := w.tree;
  }

  lemma RefinesTrans(a: Expr, b: Expr, c: Expr)
    requires Refines(a, b) && Refines(b, c)
    ensures Refines(a, c)
  {
    forall env | WellTyped(env) ensures Decides(Value(a, env), Value(c, env)) {
      DecidesTrans(Value(a, env), Value(b, env), Value(c, env));
    }
  }

  lemma RefinesYn(a: Expr, b: Expr)
    requires Refines(a, b)
    ensures Refines(a, EliminateYn(b))
  {
    forall env | WellTyped(env) ensures Decides(Value(a, env), Value(EliminateYn(b), env)) {
      EliminateYnValue(b, env);
    }
  }

  lemma {:induction false} NegatesYn(e: Expr)
    requires NegatesSymbols(e)
    ensures NegatesSymbols(EliminateYn(e))
  {
    if e.Bin? {
      NegatesYn(e.left);
      NegatesYn(e.right);
    }
  }

  lemma {:induction false} NoModInside(e: Expr, env: Env)
    requires forall s :: s in Symbols(e) ==> env.tri(s) != MOD
    ensures Value(e, env) != MOD
  {
    match e
    case Sym(s) => assert s in Symbols(e);
    case Not(a) => NoModInside(a, env);
    case Bin(_, l, r) => NoModInside(l, env); NoModInside(r, env);
    case Cmp(_, _, _) =>
  }

  /** Where no symbol of the expression is mod, the simplified one has its very value. */
  lemma ExactWithoutMod(e: Expr, r: Expr, env: Env)
    requires WellTyped(env) && Refines(e, r) && forall s :: s in Symbols(e) ==> env.tri(s) != MOD
    ensures Value(r, env) == Value(e, env)
  {
    NoModInside(e, env);
    assert Decides(Value(e, env), Value(r, env));
  }

  lemma {:induction false} SimplifyRefines(e: Expr)
    ensures Refines(e, Simplify(e))
    decreases Size(e)
  {
    if e.Bin? {
      var x := Round(e.op, e);
      RoundRefines(e.op, e);
      RoundCounts(e.op, e);
      if x.1 > 0 {
        RefinesYn(e, x.0);
        SimplifyRefines(EliminateYn(x.0));
        RefinesTrans(e, EliminateYn(x.0), Simplify(e));
      }
    }
  }

  /** The last round found nothing to join or to cut. */
  lemma {:induction false} SimplifyIsSimple(e: Expr)
    ensures DupFree(Simplify(e)) && CutFree(Simplify(e))
    decreases Size(e)
  {
    if e.Bin? {
      var x := Round(e.op, e);
      RoundCounts(e.op, e);
      if x.1 > 0 { SimplifyIsSimple(EliminateYn(x.0)); }
    }
  }

  /** Simplifying again changes nothing: the last round counted no rewriting. */
  lemma {:induction false} SimplifyIdempotent(e: Expr)
    ensures Simplify(Simplify(e)) == Simplify(e)
    decreases Size(e)
  {
    if e.Bin? {
      var x := Round(e.op, e);
      RoundCounts(e.op, e);
      if x.1 > 0 { SimplifyIdempotent(EliminateYn(x.0)); }
    }
  }

  /** Two operands that are no chains and cannot be joined stay as they are. */
  lemma PairIsSimple(op: Op, l: Expr, r: Expr)
    requires !l.Bin? && !r.Bin? && Join(op, l, r).None? && Join(op, r, l).None?
    ensures Simplify(Bin(op, l, r)) == Bin(op, l, r)
  {
    var e := Bin(op, l, r);
    forall x | IsOperand(op, e, x) ensures (x == [L] && At(e, x) == l) || (x == [R] && At(e, x) == r) {
      PairOperands(op, l, r, x);
    }
    NoMergeMeansDupFree(e);
    Dups2FlatChain(op, e, [], []);
  }

  /** But a mod can be lost: with A at mod and B at no, `(A || B) && (!A && !B)` is worth
      mod, and its simplification is worth no. */
  lemma SimplifyLosesMod(env: Env)
    requires WellTyped(env) && env.tri(SYM_A.sym) == MOD && env.tri(SYM_B.sym) == NO
    ensures Value(CONFLICT, env) == MOD && Value(Simplify(CONFLICT), env) == NO
  {
    CutLosesMod(env);
    ConflictIsDupFree();
    NoMergeMeansDupFree(CONFLICT);
    var x := Round(AndOp, CONFLICT);
    RoundCounts(AndOp, CONFLICT);
    assert Value(x.0, env) == NO;
    EliminateYnValue(x.0, env);
    SimplifyRefines(EliminateYn(x.0));
    assert Decides(Value(EliminateYn(x.0), env), Value(Simplify(EliminateYn(x.0)), env));
  }
}
