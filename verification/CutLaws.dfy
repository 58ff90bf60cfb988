/** Which operands expr_eliminate_dups2 cuts, and when it finds nothing left to cut. */
module CutLaws {
  import opened Exprs
  import opened Equality
  import opened Transform
  import opened Likeness
  import opened Paths
  import opened Dups
  import opened DupsLaws

  /** An operand is cut if and only if the part of the chain that it is held against has
      every operand of its negation. */
  lemma ContradictsIff(op: Op, a: Expr, b: Expr)
    requires Pure(TransformExpr(Not(a))) && !IsYn(TransformExpr(Not(a))) && Open(op, b)
    ensures Contradicts(op, a, b) <==> Live(op, TransformExpr(Not(a))) <= Live(op, b)
  {
    NothingLeftIff(op, TransformExpr(Not(a)), b);
  }

  /** No operand of any chain outside a negation is contradicted by another part of its
      chain. */
  ghost predicate CutFree(e: Expr)
    decreases Size(e)
  {
    e.Bin? ==>
      && (forall p, q :: IsOperand(e.op, e, p) && OnChain(e.op, e, q) && p != q && At(e, p).Bin? ==>
            !Contradicts(e.op, At(e, p), At(e, q)))
      && (forall p :: IsOperand(e.op, e, p) && Size(At(e, p)) < Size(e) ==> CutFree(At(e, p)))
  }

  /** The same for the operands under the pointer `p` and the parts under `q` alone. */
  ghost predicate Uncut(op: Op, t: Expr, p: Path, q: Path) {
    forall a, b :: IsOperand(op, t, a) && OnChain(op, t, b) && p <= a && q <= b && a != b && At(t, a).Bin? ==>
      !Contradicts(op, At(t, a), At(t, b)) && CutFree(At(t, a))
  }

  /** A part under `q` is `q` itself, or under one of its two halves. */
  lemma {:induction false} PartUnder(op: Op, t: Expr, q: Path, b: Path)
    requires OnChain(op, t, q) && OnChain(op, t, b) && q <= b
    ensures b == q || (IsOp(op, At(t, q)) && (q + [L] <= b || q + [R] <= b))
  {
    if q == [] {
      if b != [] { assert b == [b[0]] + b[1..]; }
    } else {
      PartUnder(op, Child(t, q[0]), q[1..], b[1..]);
      assert q == [q[0]] + q[1..] && b == [q[0]] + b[1..];
    }
  }

  lemma UncutHalves(op: Op, t: Expr, p: Path, q: Path)
    requires OnChain(op, t, p) && IsOp(op, At(t, p))
    requires Uncut(op, t, p + [L], q) && Uncut(op, t, p + [R], q)
    ensures Uncut(op, t, p, q)
  {
    forall a | IsOperand(op, t, a) && p <= a ensures p + [L] <= a || p + [R] <= a { OperandUnder(op, t, p, a); }
  }

  /** An operand against a part of the chain, and against its two halves. */
  lemma UncutParts(op: Op, t: Expr, p: Path, q: Path)
    requires IsOperand(op, t, p) && OnChain(op, t, q)
    requires IsOp(op, At(t, q)) ==> Uncut(op, t, p, q + [L]) && Uncut(op, t, p, q + [R])
    requires p != q && At(t, p).Bin? ==> !Contradicts(op, At(t, p), At(t, q)) && CutFree(At(t, p))
    ensures Uncut(op, t, p, q)
  {
    forall a | IsOperand(op, t, a) && p <= a ensures a == p { OperandUnder(op, t, p, a); }
    forall b | OnChain(op, t, b) && q <= b
      ensures b == q || (IsOp(op, At(t, q)) && (q + [L] <= b || q + [R] <= b))
    {
      PartUnder(op, t, q, b);
    }
  }

  /** What no cut says of one operand. */
  lemma {:induction false} UncutOperand(op: Op, t: Expr, p: Path, q: Path)
    requires IsOp(op, t) && IsOperand(op, t, p) && OnChain(op, t, q) && Cut(op, t, p, q).1 == 0
    ensures At(t, p).Bin? ==> !Contradicts(op, At(t, p), At(t, q)) && CutFree(At(t, p))
    decreases Size(t), Width(op, At(t, p)) + Width(op, At(t, q)), 0
  {
    var a := At(t, p);
    PutSize(t, p, a);
    PutAt(t, p, a);
    if a.Bin? {
      Dups2Count(a.op, a, [], []);
      Dups2Fixpoint(a.op, a, [], []);
      UncutIsCutFree(a);
    }
  }

  lemma {:induction false} Dups2Fixpoint(op: Op, t: Expr, p: Path, q: Path)
    requires IsOp(op, t) && OnChain(op, t, p) && OnChain(op, t, q)
    requires Dups2(op, t, p, q).1 == 0
    ensures Uncut(op, t, p, q)
    decreases Size(t), Width(op, At(t, p)) + Width(op, At(t, q)), 1
  {
    if IsOp(op, At(t, p)) {
      ChainStep(op, t, p, L); ChainStep(op, t, p, R);
      Dups2Count(op, t, p + [L], q);
      Dups2Fixpoint(op, t, p + [L], q);
      Dups2Fixpoint(op, t, p + [R], q);
      UncutHalves(op, t, p, q);
    } else {
      if IsOp(op, At(t, q)) {
        ChainStep(op, t, q, L); ChainStep(op, t, q, R);
        Dups2Count(op, t, p, q + [L]);
        Dups2Count(op, t, p, q + [R]);
        Dups2Fixpoint(op, t, p, q + [L]);
        Dups2Fixpoint(op, t, p, q + [R]);
      }
      if p != q { UncutOperand(op, t, p, q); }
      UncutParts(op, t, p, q);
    }
  }

  lemma UncutAt(e: Expr, p: Path, q: Path)
    requires e.Bin? && Uncut(e.op, e, [], []) && IsOperand(e.op, e, p) && OnChain(e.op, e, q) && p != q && At(e, p).Bin?
    ensures !Contradicts(e.op, At(e, p), At(e, q)) && CutFree(At(e, p))
  {
    var root: Path := [];
    assert root <= p && root <= q;
  }

  lemma UncutIsCutFree(e: Expr)
    requires e.Bin? && Uncut(e.op, e, [], [])
    ensures CutFree(e)
  {
    forall p | IsOperand(e.op, e, p) && Size(At(e, p)) < Size(e) ensures CutFree(At(e, p)) {
      if At(e, p).Bin? { UncutAt(e, p, []); }
    }
    forall p, q | IsOperand(e.op, e, p) && OnChain(e.op, e, q) && p != q && At(e, p).Bin?
      ensures !Contradicts(e.op, At(e, p), At(e, q))
    {
      UncutAt(e, p, q);
    }
  }

  /** The other way round, the pass leaves a tree without contradictions as it is. */
  lemma {:induction false} CutFreeIsFixed(op: Op, t: Expr, p: Path, q: Path)
    requires IsOp(op, t) && OnChain(op, t, p) && OnChain(op, t, q) && CutFree(t)
    ensures Dups2(op, t, p, q) == (t, 0)
    decreases Size(t), Width(op, At(t, p)) + Width(op, At(t, q))
  {
    if IsOp(op, At(t, p)) {
      ChainStep(op, t, p, L); ChainStep(op, t, p, R);
      CutFreeIsFixed(op, t, p + [L], q);
      CutFreeIsFixed(op, t, p + [R], q);
    } else {
      if IsOp(op, At(t, q)) {
        ChainStep(op, t, q, L); ChainStep(op, t, q, R);
        CutFreeIsFixed(op, t, p, q + [L]);
        CutFreeIsFixed(op, t, p, q + [R]);
      }
      if p != q && At(t, p).Bin? {
        PutSize(t, p, At(t, p));
        PutAt(t, p, At(t, p));
        CutFreeIsFixed(At(t, p).op, At(t, p), [], []);
      }
    }
  }

  /** A second pass counts no change exactly where nothing contradicts anything. */
  lemma NoCutMeansCutFree(e: Expr)
    requires e.Bin?
    ensures Dups2(e.op, e, [], []).1 == 0 <==> CutFree(e)
    ensures CutFree(e) ==> Dups2(e.op, e, [], []).0 == e
  {
    if Dups2(e.op, e, [], []).1 == 0 {
      Dups2Fixpoint(e.op, e, [], []);
      UncutIsCutFree(e);
    }
    if CutFree(e) { CutFreeIsFixed(e.op, e, [], []); }
  }
}
