/** expr_eliminate_dups: merging the operands of a chain pairwise (dups1), cutting
    operands that the rest of the chain decides (dups2), until nothing changes. */
module Dups {
  import opened Exprs
  import opened Equality
  import opened Transform
  import opened Joins
  import opened Paths

  /** The operand at `p` becomes the constant, the one at `q` the merged operand. */
  function Merge(op: Op, t: Expr, p: Path, q: Path, merged: Expr): (r: Expr)
    requires IsOperand(op, t, p) && IsOperand(op, t, q) && p != q
    requires !IsOp(op, merged) && Size(merged) <= Size(At(t, p))
    ensures SameChain(op, t, r) && Size(r) <= Size(t)
  {
    var id := Sym(Identity(op));
    PutElsewhere(op, t, p, q, id);
    SameChainPut(op, t, p, id);
    SameChainAt(op, t, Put(t, p, id), q);
    SameChainPut(op, Put(t, p, id), q, merged);
    SameChainTrans(op, t, Put(t, p, id), Put(Put(t, p, id), q, merged));
    PutSize(t, p, id);
    PutSize(Put(t, p, id), q, merged);
    Put(Put(t, p, id), q, merged)
  }

  /** Writing an operand that is no larger. */
  function PutOperand(op: Op, t: Expr, p: Path, x: Expr): (r: Expr)
    requires IsOperand(op, t, p) && !IsOp(op, x) && Size(x) <= Size(At(t, p))
    ensures SameChain(op, t, r) && Size(r) <= Size(t)
    ensures IsOperand(op, r, p) && At(r, p) == x
  {
    SameChainPut(op, t, p, x);
    SameChainAt(op, t, Put(t, p, x), p);
    PutSize(t, p, x);
    PutAt(t, p, x);
    Put(t, p, x)
  }

  /** expr_eliminate_dups1 on the chain `t`, with the pointers `p` and `q` into it:
      the tree it leaves and the number of merges, which it adds to trans_count. */
  function Dups1(op: Op, t: Expr, p: Path, q: Path): (r: (Expr, nat))
    requires IsOp(op, t) && OnChain(op, t, p) && OnChain(op, t, q)
    ensures SameChain(op, t, r.0) && Size(r.0) <= Size(t)
    decreases Size(t), Width(op, At(t, p)) + Width(op, At(t, q))
  {
    var a, b := At(t, p), At(t, q);
    if IsOp(op, a) then
      ChainStep(op, t, p, L); ChainStep(op, t, p, R);
      var x := Dups1(op, t, p + [L], q);
      SameChainAt(op, t, x.0, p + [R]); SameChainAt(op, t, x.0, q);
      var y := Dups1(op, x.0, p + [R], q);
      SameChainTrans(op, t, x.0, y.0);
      (y.0, x.1 + y.1)
    else if IsOp(op, b) then
      ChainStep(op, t, q, L); ChainStep(op, t, q, R);
      var x := Dups1(op, t, p, q + [L]);
      SameChainAt(op, t, x.0, p); SameChainAt(op, t, x.0, q + [R]);
      var y := Dups1(op, x.0, p, q + [R]);
      SameChainTrans(op, t, x.0, y.0);
      (y.0, x.1 + y.1)
    else if p == q then
      SameChainRefl(op, t);
      (t, 0)
    else
      PutSize(t, p, a);
      var x := if a.Bin? then Dups1(a.op, a, [], []) else (a, 0);
      var t1 := PutOperand(op, t, p, x.0);
      SameChainAt(op, t, t1, q);
      var merged := Join(op, x.0, b);
      if merged.None? then (t1, x.1)
      else
        var t2 := Merge(op, t1, p, q, merged.value);
        SameChainTrans(op, t, t1, t2);
        (t2, x.1 + 1)
  }

  /** The negation of `a` is made up of operands of the chain `b`. */
  predicate Contradicts(op: Op, a: Expr, b: Expr) {
    ExtractCommon(op, TransformExpr(Not(a)), b).a == Sym(Identity(op))
  }

  /** expr_eliminate_dups2. */
  function Dups2(op: Op, t: Expr, p: Path, q: Path): (r: (Expr, nat))
    requires IsOp(op, t) && OnChain(op, t, p) && OnChain(op, t, q)
    ensures SameChain(op, t, r.0) && Size(r.0) <= Size(t)
    decreases Size(t), Width(op, At(t, p)) + Width(op, At(t, q)), 1
  {
    var a, b := At(t, p), At(t, q);
    if IsOp(op, a) then
      ChainStep(op, t, p, L); ChainStep(op, t, p, R);
      var x := Dups2(op, t, p + [L], q);
      SameChainAt(op, t, x.0, p + [R]); SameChainAt(op, t, x.0, q);
      var y := Dups2(op, x.0, p + [R], q);
      SameChainTrans(op, t, x.0, y.0);
      (y.0, x.1 + y.1)
    else if IsOp(op, b) then
      ChainStep(op, t, q, L); ChainStep(op, t, q, R);
      var x := Dups2(op, t, p, q + [L]);
      SameChainAt(op, t, x.0, p); SameChainAt(op, t, x.0, q + [R]);
      var y := Dups2(op, x.0, p, q + [R]);
      SameChainTrans(op, t, x.0, y.0);
      SameChainAt(op, t, y.0, p); SameChainAt(op, t, y.0, q);
      var z := Cut(op, y.0, p, q);
      SameChainTrans(op, t, y.0, z.0);
      (z.0, x.1 + y.1 + z.1)
    else if p == q then
      SameChainRefl(op, t);
      (t, 0)
    else
      Cut(op, t, p, q)
  }

  /** The part of expr_eliminate_dups2 for one operand `p` and a part `q` of the
      chain, which may itself contain that operand. */
  function Cut(op: Op, t: Expr, p: Path, q: Path): (r: (Expr, nat))
    requires IsOp(op, t) && IsOperand(op, t, p) && OnChain(op, t, q)
    ensures SameChain(op, t, r.0) && Size(r.0) <= Size(t)
    decreases Size(t), Width(op, At(t, p)) + Width(op, At(t, q)), 0
  {
    var a := At(t, p);
    if !a.Bin? then
      SameChainRefl(op, t);
      (t, 0)
    else
      PutSize(t, p, a);
      var x := Dups2(a.op, a, [], []);
      var t1 := PutOperand(op, t, p, x.0);
      SameChainAt(op, t, t1, q);
      if !Contradicts(op, x.0, At(t1, q)) then (t1, x.1)
      else
        var t2 := PutOperand(op, t1, p, Sym(Absorbing(op)));
        SameChainTrans(op, t, t1, t2);
        (t2, x.1 + 1)
  }
}
