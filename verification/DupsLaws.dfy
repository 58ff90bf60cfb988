/** What the two passes of expr_eliminate_dups keep, and what they leave. */
module DupsLaws {
  import opened Tristates
  import opened Exprs
  import opened Equality
  import opened Transform
  import opened Joins
  import opened Paths
  import opened Dups

  lemma MergeValue(op: Op, t: Expr, p: Path, q: Path, env: Env)
    requires WellTyped(env) && IsOperand(op, t, p) && IsOperand(op, t, q) && p != q
    requires var m := Join(op, At(t, p), At(t, q));
             m.Some? && !IsOp(op, m.value)
    ensures Value(Merge(op, t, p, q, Join(op, At(t, p), At(t, q)).value), env) == Value(t, env)
  {
    var m := Join(op, At(t, p), At(t, q)).value;
    JoinValue(op, At(t, p), At(t, q), env);
    ConstantOperand(op, Sym(Identity(op)), env);
    var c := RestOfPair(op, t, p, q, Sym(Identity(op)), m, env);
  }

  /** expr_eliminate_dups1 keeps the value exactly. */
  lemma {:induction false} Dups1Value(op: Op, t: Expr, p: Path, q: Path, env: Env)
    requires WellTyped(env) && IsOp(op, t) && OnChain(op, t, p) && OnChain(op, t, q)
    ensures Value(Dups1(op, t, p, q).0, env) == Value(t, env)
    decreases Size(t), Width(op, At(t, p)) + Width(op, At(t, q))
  {
    var a, b := At(t, p), At(t, q);
    if IsOp(op, a) {
      ChainStep(op, t, p, L); ChainStep(op, t, p, R);
      var x := Dups1(op, t, p + [L], q);
      Dups1Value(op, t, p + [L], q, env);
      SameChainAt(op, t, x.0, p + [R]); SameChainAt(op, t, x.0, q);
      Dups1Value(op, x.0, p + [R], q, env);
    } else if IsOp(op, b) {
      ChainStep(op, t, q, L); ChainStep(op, t, q, R);
      var x := Dups1(op, t, p, q + [L]);
      Dups1Value(op, t, p, q + [L], env);
      SameChainAt(op, t, x.0, p); SameChainAt(op, t, x.0, q + [R]);
      Dups1Value(op, x.0, p, q + [R], env);
    } else if p != q {
      PutSize(t, p, a);
      var x := if a.Bin? then Dups1(a.op, a, [], []) else (a, 0);
      if a.Bin? { Dups1Value(a.op, a, [], [], env); }
      var c := RestOfChain(op, t, p, x.0, env);
      var t1 := PutOperand(op, t, p, x.0);
      SameChainAt(op, t, t1, q);
      PutElsewhere(op, t, p, q, x.0);
      if Join(op, x.0, b).Some? { MergeValue(op, t1, p, q, env); }
    }
  }

  lemma DecidesTrans(a: Tristate, b: Tristate, c: Tristate)
    requires Decides(a, b) && Decides(b, c)
    ensures Decides(a, c)
  {}

  /** Deciding an operand can only decide the chain. */
  lemma DecidesChain(op: Op, t: Expr, p: Path, x: Expr, env: Env)
    requires WellTyped(env) && OnChain(op, t, p)
    requires Decides(Value(At(t, p), env), Value(x, env))
    ensures Decides(Value(t, env), Value(Put(t, p, x), env))
  {
    var c := RestOfChain(op, t, p, x, env);
  }

  /** What Contradicts tests: the chain `b` is on the far side of the negation of `a`. */
  lemma ContradictsValue(op: Op, a: Expr, b: Expr, env: Env)
    requires WellTyped(env) && Contradicts(op, a, b)
    ensures Apply(op, TriNot(Value(a, env)), Value(b, env)) == Value(b, env)
  {
    var x := ExtractCommon(op, TransformExpr(Not(a)), b);
    TransformValue(Not(a), env);
    ExtractCommonValue(op, TransformExpr(Not(a)), b, env);
    ConstantOperand(op, x.a, env);
  }

  /** A chain whose operand `p` is contradicted by a part `q` of it: with the
      constant in place of the operand the value is the same exactly where it
      was not mod. */
  lemma CutIsExact(op: Op, t: Expr, p: Path, q: Path, env: Env)
    requires WellTyped(env) && OnChain(op, t, p) && OnChain(op, t, q)
    requires Contradicts(op, At(t, p), At(t, q))
    ensures Value(Put(t, p, Sym(Absorbing(op))), env) == env.tri(Absorbing(op))
    ensures Value(Put(t, p, Sym(Absorbing(op))), env) == Value(t, env) <==> Value(t, env) != MOD
  {
    ContradictsValue(op, At(t, p), At(t, q), env);
    ConstantOperand(op, Sym(Absorbing(op)), env);
    var c := RestOfChain(op, t, p, Sym(Absorbing(op)), env);
    var d := RestOfChain(op, t, q, Sym(SymNo), env);
  }

  /** expr_eliminate_dups2 gives the same value wherever the value is not mod. */
  lemma {:induction false} Dups2Decides(op: Op, t: Expr, p: Path, q: Path, env: Env)
    requires WellTyped(env) && IsOp(op, t) && OnChain(op, t, p) && OnChain(op, t, q)
    ensures Decides(Value(t, env), Value(Dups2(op, t, p, q).0, env))
    decreases Size(t), Width(op, At(t, p)) + Width(op, At(t, q)), 1
  {
    var a, b := At(t, p), At(t, q);
    if IsOp(op, a) {
      ChainStep(op, t, p, L); ChainStep(op, t, p, R);
      var x := Dups2(op, t, p + [L], q);
      Dups2Decides(op, t, p + [L], q, env);
      SameChainAt(op, t, x.0, p + [R]); SameChainAt(op, t, x.0, q);
      Dups2Decides(op, x.0, p + [R], q, env);
    } else if IsOp(op, b) {
      ChainStep(op, t, q, L); ChainStep(op, t, q, R);
      var x := Dups2(op, t, p, q + [L]);
      Dups2Decides(op, t, p, q + [L], env);
      SameChainAt(op, t, x.0, p); SameChainAt(op, t, x.0, q + [R]);
      var y := Dups2(op, x.0, p, q + [R]);
      Dups2Decides(op, x.0, p, q + [R], env);
      SameChainTrans(op, t, x.0, y.0);
      SameChainAt(op, t, y.0, p); SameChainAt(op, t, y.0, q);
      CutDecides(op, y.0, p, q, env);
    } else if p != q {
      CutDecides(op, t, p, q, env);
    }
  }

  lemma {:induction false} CutDecides(op: Op, t: Expr, p: Path, q: Path, env: Env)
    requires WellTyped(env) && IsOp(op, t) && IsOperand(op, t, p) && OnChain(op, t, q)
    ensures Decides(Value(t, env), Value(Cut(op, t, p, q).0, env))
    decreases Size(t), Width(op, At(t, p)) + Width(op, At(t, q)), 0
  {
    var a := At(t, p);
    if a.Bin? {
      PutSize(t, p, a);
      var x := Dups2(a.op, a, [], []);
      Dups2Decides(a.op, a, [], [], env);
      DecidesChain(op, t, p, x.0, env);
      var t1 := PutOperand(op, t, p, x.0);
      SameChainAt(op, t, t1, q);
      if Contradicts(op, x.0, At(t1, q)) { CutIsExact(op, t1, p, q, env); }
    }
  }

  lemma {:induction false} NegatesAt(e: Expr, p: Path, x: Expr)
    requires ValidPath(e, p) && NegatesSymbols(e)
    ensures NegatesSymbols(At(e, p))
    ensures NegatesSymbols(x) ==> NegatesSymbols(Put(e, p, x))
  {
    if p != [] { NegatesAt(Child(e, p[0]), p[1..], x); }
  }

  /** Every merge leaves a constant for expr_eliminate_yn to remove, and a pass
      without merges changes nothing. No negation moves off its symbol. */
  lemma {:induction false} Dups1Count(op: Op, t: Expr, p: Path, q: Path)
    requires IsOp(op, t) && OnChain(op, t, p) && OnChain(op, t, q)
    ensures var r := Dups1(op, t, p, q);
            && (r.1 == 0 ==> r.0 == t) && (r.1 > 0 ==> !YnFree(r.0))
            && (NegatesSymbols(t) ==> NegatesSymbols(r.0))
    decreases Size(t), Width(op, At(t, p)) + Width(op, At(t, q))
  {
    var a, b := At(t, p), At(t, q);
    if IsOp(op, a) {
      ChainStep(op, t, p, L); ChainStep(op, t, p, R);
      var x := Dups1(op, t, p + [L], q);
      Dups1Count(op, t, p + [L], q);
      SameChainAt(op, t, x.0, p + [R]); SameChainAt(op, t, x.0, q);
      Dups1Count(op, x.0, p + [R], q);
    } else if IsOp(op, b) {
      ChainStep(op, t, q, L); ChainStep(op, t, q, R);
      var x := Dups1(op, t, p, q + [L]);
      Dups1Count(op, t, p, q + [L]);
      SameChainAt(op, t, x.0, p); SameChainAt(op, t, x.0, q + [R]);
      Dups1Count(op, x.0, p, q + [R]);
    } else if p != q {
      PutSize(t, p, a);
      PutAt(t, p, a);
      var x := if a.Bin? then Dups1(a.op, a, [], []) else (a, 0);
      if a.Bin? { Dups1Count(a.op, a, [], []); }
      var t1 := PutOperand(op, t, p, x.0);
      SameChainAt(op, t, t1, q);
      PutElsewhere(op, t, p, q, x.0);
      if NegatesSymbols(t) { NegatesAt(t, p, x.0); }
      var m := Join(op, x.0, b);
      if m.Some? {
        MergeLeavesConstant(op, t1, p, q, m.value);
      } else if x.1 > 0 {
        PutNotYnFree(t, p, x.0);
      }
    }
  }

  lemma MergeLeavesConstant(op: Op, t: Expr, p: Path, q: Path, m: Expr)
    requires IsOperand(op, t, p) && IsOperand(op, t, q) && p != q
    requires !IsOp(op, m) && Size(m) <= Size(At(t, p))
    ensures !YnFree(Merge(op, t, p, q, m))
    ensures NegatesSymbols(t) && NegatesSymbols(m) ==> NegatesSymbols(Merge(op, t, p, q, m))
  {
    var id := Sym(Identity(op));
    if NegatesSymbols(t) {
      NegatesAt(t, p, id);
      PutElsewhere(op, t, p, q, id);
      NegatesAt(Put(t, p, id), q, m);
    }
    PutElsewhere(op, t, p, q, id);
    var t1 := PutOperand(op, t, p, id);
    SameChainAt(op, t, t1, q);
    PutElsewhere(op, t1, q, p, m);
    PutAt(Put(t1, q, m), p, id);
    PutNotYnFree(Put(t1, q, m), p, id);
  }

  lemma {:induction false} Dups2Count(op: Op, t: Expr, p: Path, q: Path)
    requires IsOp(op, t) && OnChain(op, t, p) && OnChain(op, t, q)
    ensures var r := Dups2(op, t, p, q);
            && (r.1 == 0 ==> r.0 == t) && (r.1 > 0 ==> !YnFree(r.0))
            && (NegatesSymbols(t) ==> NegatesSymbols(r.0))
    decreases Size(t), Width(op, At(t, p)) + Width(op, At(t, q)), 1
  {
    var a, b := At(t, p), At(t, q);
    if IsOp(op, a) {
      ChainStep(op, t, p, L); ChainStep(op, t, p, R);
      var x := Dups2(op, t, p + [L], q);
      Dups2Count(op, t, p + [L], q);
      SameChainAt(op, t, x.0, p + [R]); SameChainAt(op, t, x.0, q);
      Dups2Count(op, x.0, p + [R], q);
    } else if IsOp(op, b) {
      ChainStep(op, t, q, L); ChainStep(op, t, q, R);
      var x := Dups2(op, t, p, q + [L]);
      Dups2Count(op, t, p, q + [L]);
      SameChainAt(op, t, x.0, p); SameChainAt(op, t, x.0, q + [R]);
      var y := Dups2(op, x.0, p, q + [R]);
      Dups2Count(op, x.0, p, q + [R]);
      SameChainTrans(op, t, x.0, y.0);
      SameChainAt(op, t, y.0, p); SameChainAt(op, t, y.0, q);
      CutCount(op, y.0, p, q);
    } else if p != q {
      CutCount(op, t, p, q);
    }
  }

  lemma {:induction false} CutCount(op: Op, t: Expr, p: Path, q: Path)
    requires IsOp(op, t) && IsOperand(op, t, p) && OnChain(op, t, q)
    ensures var r := Cut(op, t, p, q);
            && (r.1 == 0 ==> r.0 == t) && (r.1 > 0 ==> !YnFree(r.0))
            && (NegatesSymbols(t) ==> NegatesSymbols(r.0))
    decreases Size(t), Width(op, At(t, p)) + Width(op, At(t, q)), 0
  {
    var a := At(t, p);
    if a.Bin? {
      PutSize(t, p, a);
      PutAt(t, p, a);
      var x := Dups2(a.op, a, [], []);
      Dups2Count(a.op, a, [], []);
      var t1 := PutOperand(op, t, p, x.0);
      SameChainAt(op, t, t1, q);
      if NegatesSymbols(t) {
        NegatesAt(t, p, x.0);
        NegatesAt(t, p, Sym(Absorbing(op)));
        PutAt(t, p, x.0);
      }
      if Contradicts(op, x.0, At(t1, q)) {
        PutNotYnFree(t1, p, Sym(Absorbing(op)));
      } else if x.1 > 0 {
        PutNotYnFree(t, p, x.0);
      }
    }
  }

  /** Any two operands of any chain outside a negation resist merging; in
      particular no operand is there twice. */
  ghost predicate DupFree(e: Expr)
    decreases Size(e)
  {
    e.Bin? ==>
      && (forall p, q :: IsOperand(e.op, e, p) && IsOperand(e.op, e, q) && p != q ==>
            Join(e.op, At(e, p), At(e, q)).None?)
      && (forall p :: IsOperand(e.op, e, p) && Size(At(e, p)) < Size(e) ==> DupFree(At(e, p)))
  }

  /** The same for the operands under the pointers `p` and `q` alone. */
  ghost predicate Unmerged(op: Op, t: Expr, p: Path, q: Path) {
    forall a, b :: IsOperand(op, t, a) && IsOperand(op, t, b) && p <= a && q <= b && a != b ==>
      Join(op, At(t, a), At(t, b)).None? && DupFree(At(t, a))
  }

  /** An operand under `p` is `p` itself, or under one of its two halves. */
  lemma {:induction false} OperandUnder(op: Op, t: Expr, p: Path, a: Path)
    requires OnChain(op, t, p) && IsOperand(op, t, a) && p <= a
    ensures if IsOp(op, At(t, p)) then p + [L] <= a || p + [R] <= a else a == p
  {
    if p == [] {
      if a != [] { assert a == [a[0]] + a[1..]; }
    } else {
      OperandUnder(op, Child(t, p[0]), p[1..], a[1..]);
      assert p == [p[0]] + p[1..] && a == [p[0]] + a[1..];
    }
  }

  lemma UnmergedHalves(op: Op, t: Expr, p: Path, q: Path)
    requires OnChain(op, t, p) && IsOp(op, At(t, p))
    requires Unmerged(op, t, p + [L], q) && Unmerged(op, t, p + [R], q)
    ensures Unmerged(op, t, p, q)
  {
    forall x | IsOperand(op, t, x) && p <= x ensures p + [L] <= x || p + [R] <= x { OperandUnder(op, t, p, x); }
  }

  lemma UnmergedOtherHalves(op: Op, t: Expr, p: Path, q: Path)
    requires OnChain(op, t, q) && IsOp(op, At(t, q))
    requires Unmerged(op, t, p, q + [L]) && Unmerged(op, t, p, q + [R])
    ensures Unmerged(op, t, p, q)
  {
    forall x | IsOperand(op, t, x) && q <= x ensures q + [L] <= x || q + [R] <= x { OperandUnder(op, t, q, x); }
  }

  lemma UnmergedOperands(op: Op, t: Expr, p: Path, q: Path)
    requires IsOperand(op, t, p) && IsOperand(op, t, q)
    requires p != q ==> Join(op, At(t, p), At(t, q)).None? && DupFree(At(t, p))
    ensures Unmerged(op, t, p, q)
  {
    OnlyOperands(op, t, p, q);
  }

  lemma {:induction false} Dups1Fixpoint(op: Op, t: Expr, p: Path, q: Path)
    requires IsOp(op, t) && OnChain(op, t, p) && OnChain(op, t, q)
    requires Dups1(op, t, p, q).1 == 0
    ensures Unmerged(op, t, p, q)
    decreases Size(t), Width(op, At(t, p)) + Width(op, At(t, q))
  {
    var a, b := At(t, p), At(t, q);
    if IsOp(op, a) {
      ChainStep(op, t, p, L); ChainStep(op, t, p, R);
      Dups1Count(op, t, p + [L], q);
      Dups1Fixpoint(op, t, p + [L], q);
      Dups1Fixpoint(op, t, p + [R], q);
      UnmergedHalves(op, t, p, q);
    } else if IsOp(op, b) {
      ChainStep(op, t, q, L); ChainStep(op, t, q, R);
      Dups1Count(op, t, p, q + [L]);
      Dups1Fixpoint(op, t, p, q + [L]);
      Dups1Fixpoint(op, t, p, q + [R]);
      UnmergedOtherHalves(op, t, p, q);
    } else {
      if p != q {
        PutSize(t, p, a);
        PutAt(t, p, a);
        if a.Bin? {
          Dups1Count(a.op, a, [], []);
          Dups1Fixpoint(a.op, a, [], []);
          UnmergedIsDupFree(a);
        }
      }
      UnmergedOperands(op, t, p, q);
    }
  }

  /** No other operands lie under pointers to operands. */
  lemma OnlyOperands(op: Op, t: Expr, p: Path, q: Path)
    requires IsOperand(op, t, p) && IsOperand(op, t, q)
    ensures forall x :: IsOperand(op, t, x) ==> (p <= x ==> x == p) && (q <= x ==> x == q)
  {
    forall x | IsOperand(op, t, x) ensures (p <= x ==> x == p) && (q <= x ==> x == q) {
      if p <= x { OperandUnder(op, t, p, x); }
      if q <= x { OperandUnder(op, t, q, x); }
    }
  }

  /** The other way round, the pass leaves a tree without duplicates as it is. */
  lemma {:induction false} DupFreeIsFixed(op: Op, t: Expr, p: Path, q: Path)
    requires IsOp(op, t) && OnChain(op, t, p) && OnChain(op, t, q) && DupFree(t)
    ensures Dups1(op, t, p, q) == (t, 0)
    decreases Size(t), Width(op, At(t, p)) + Width(op, At(t, q))
  {
    var a, b := At(t, p), At(t, q);
    if IsOp(op, a) {
      ChainStep(op, t, p, L); ChainStep(op, t, p, R);
      DupFreeIsFixed(op, t, p + [L], q);
      DupFreeIsFixed(op, t, p + [R], q);
    } else if IsOp(op, b) {
      ChainStep(op, t, q, L); ChainStep(op, t, q, R);
      DupFreeIsFixed(op, t, p, q + [L]);
      DupFreeIsFixed(op, t, p, q + [R]);
    } else if p != q {
      PutSize(t, p, a);
      PutAt(t, p, a);
      if a.Bin? { DupFreeIsFixed(a.op, a, [], []); }
    }
  }

  /** Some operand of the chain lies under `p`. */
  lemma {:induction false} FirstOperand(op: Op, t: Expr, p: Path) returns (a: Path)
    requires OnChain(op, t, p)
    ensures IsOperand(op, t, a) && p <= a
    decreases Size(At(t, p))
  {
    if IsOp(op, At(t, p)) {
      ChainStep(op, t, p, L);
      a := FirstOperand(op, t, p + [L]);
    } else {
      a := p;
    }
  }

  lemma UnmergedIsDupFree(e: Expr)
    requires e.Bin? && Unmerged(e.op, e, [], [])
    ensures DupFree(e)
  {
    var root: Path := [];
    forall p | IsOperand(e.op, e, p) && Size(At(e, p)) < Size(e) ensures DupFree(At(e, p)) {
      ChainStep(e.op, e, [], L); ChainStep(e.op, e, [], R);
      var other := FirstOperand(e.op, e, if p[0] == L then [R] else [L]);
      assert other != p;
      assert root <= p && root <= other;
    }
    forall p, q | IsOperand(e.op, e, p) && IsOperand(e.op, e, q) && p != q
      ensures Join(e.op, At(e, p), At(e, q)).None?
    {
      assert root <= p && root <= q;
    }
  }

  /** A first pass leaves exactly the trees without duplicates as they are. */
  lemma NoMergeMeansDupFree(e: Expr)
    requires e.Bin?
    ensures Dups1(e.op, e, [], []).1 == 0 <==> DupFree(e)
    ensures DupFree(e) ==> Dups1(e.op, e, [], []).0 == e
  {
    if Dups1(e.op, e, [], []).1 == 0 {
      Dups1Fixpoint(e.op, e, [], []);
      UnmergedIsDupFree(e);
    }
    if DupFree(e) { DupFreeIsFixed(e.op, e, [], []); }
  }

  /** expr_eliminate_dups2 leaves a chain of symbols, tests and negations alone. */
  lemma {:induction false} Dups2FlatChain(op: Op, t: Expr, p: Path, q: Path)
    requires IsOp(op, t) && OnChain(op, t, p) && OnChain(op, t, q)
    requires forall a :: IsOperand(op, t, a) ==> !At(t, a).Bin?
    ensures Dups2(op, t, p, q) == (t, 0)
    decreases Width(op, At(t, p)) + Width(op, At(t, q))
  {
    if IsOp(op, At(t, p)) {
      ChainStep(op, t, p, L); ChainStep(op, t, p, R);
      Dups2FlatChain(op, t, p + [L], q);
      Dups2FlatChain(op, t, p + [R], q);
    } else if IsOp(op, At(t, q)) {
      ChainStep(op, t, q, L); ChainStep(op, t, q, R);
      Dups2FlatChain(op, t, p, q + [L]);
      Dups2FlatChain(op, t, p, q + [R]);
    }
  }

  /** The operands of a chain of two. */
  lemma PairOperands(op: Op, l: Expr, r: Expr, a: Path)
    requires !IsOp(op, l) && !IsOp(op, r) && IsOperand(op, Bin(op, l, r), a)
    ensures (a == [L] && At(Bin(op, l, r), a) == l) || (a == [R] && At(Bin(op, l, r), a) == r)
  {
    if |a| > 1 { assert !OnChain(op, Child(Bin(op, l, r), a[0]), a[1..]); }
    assert |a| == 1 && a == [a[0]];
  }

  const SYM_A: Expr := Sym(Config(0, TristateType))
  const SYM_B: Expr := Sym(Config(1, TristateType))

  /** `A || B`, `!A && !B` and their conjunction. */
  const EITHER: Expr := Bin(OrOp, SYM_A, SYM_B)
  const NEITHER: Expr := Bin(AndOp, Not(SYM_A), Not(SYM_B))
  const CONFLICT: Expr := Bin(AndOp, EITHER, NEITHER)

  /** What becomes of an operand that the second pass leaves as it is by itself. */
  lemma CutStep(op: Op, t: Expr, p: Path, q: Path)
    requires IsOp(op, t) && IsOperand(op, t, p) && OnChain(op, t, q) && At(t, p).Bin?
    requires Dups2(At(t, p).op, At(t, p), [], []) == (At(t, p), 0)
    ensures Cut(op, t, p, q).0 == if Contradicts(op, At(t, p), At(t, q)) then Put(t, p, Sym(Absorbing(op))) else t
    ensures Cut(op, t, p, q).1 == if Contradicts(op, At(t, p), At(t, q)) then 1 else 0
  {
    PutSize(t, p, At(t, p));
    PutAt(t, p, At(t, p));
  }

  /** A part of the chain, both halves of which leave it as it is. */
  lemma Dups2Through(op: Op, t: Expr, p: Path, q: Path)
    requires IsOp(op, t) && IsOperand(op, t, p) && OnChain(op, t, q) && IsOp(op, At(t, q))
    requires OnChain(op, t, q + [L]) && OnChain(op, t, q + [R])
    requires Dups2(op, t, p, q + [L]) == (t, 0) && Dups2(op, t, p, q + [R]) == (t, 0)
    ensures Dups2(op, t, p, q) == Cut(op, t, p, q)
  {}

  /** The paths to the operands of `x op (m op n)`. */
  lemma ThreeOperands(op: Op, x: Expr, m: Expr, n: Expr)
    requires !IsOp(op, x) && !IsOp(op, m) && !IsOp(op, n)
    ensures var t := Bin(op, x, Bin(op, m, n));
      && OnChain(op, t, [L]) && At(t, [L]) == x && OnChain(op, t, [R]) && At(t, [R]) == Bin(op, m, n)
      && OnChain(op, t, [R, L]) && At(t, [R, L]) == m && OnChain(op, t, [R, R]) && At(t, [R, R]) == n
  {
    var t, root: Path := Bin(op, x, Bin(op, m, n)), [];
    assert root + [L] == [L] && root + [R] == [R] && [R] + [L] == [R, L] && [R] + [R] == [R, R];
    ChainStep(op, t, root, L); ChainStep(op, t, root, R);
    ChainStep(op, t, [R], L); ChainStep(op, t, [R], R);
  }

  /** An operand that two others contradict together, and neither alone, is cut. */
  lemma CutByBoth(op: Op, x: Expr, m: Expr, n: Expr)
    requires x.Bin? && !IsOp(op, x) && !IsOp(op, m) && !IsOp(op, n) && Dups2(x.op, x, [], []) == (x, 0)
    requires !Contradicts(op, x, m) && !Contradicts(op, x, n) && Contradicts(op, x, Bin(op, m, n))
    ensures var t := Bin(op, x, Bin(op, m, n));
      OnChain(op, t, [L]) && OnChain(op, t, [R]) && Dups2(op, t, [L], [R]).0 == Put(t, [L], Sym(Absorbing(op)))
  {
    var t := Bin(op, x, Bin(op, m, n));
    ThreeOperands(op, x, m, n);
    CutStep(op, t, [L], [R, L]);
    CutStep(op, t, [L], [R, R]);
    CutStep(op, t, [L], [R]);
    assert [R] + [L] == [R, L] && [R] + [R] == [R, R];
    Dups2Through(op, t, [L], [R]);
  }

  lemma EitherIsFixed()
    ensures Dups2(OrOp, EITHER, [], []) == (EITHER, 0)
  {
    forall x | IsOperand(OrOp, EITHER, x) ensures !At(EITHER, x).Bin? {
      PairOperands(OrOp, SYM_A, SYM_B, x);
    }
    Dups2FlatChain(OrOp, EITHER, [], []);
  }

  /** No single negation cuts `A || B`, both together do. */
  lemma ConflictIsCut()
    ensures OnChain(AndOp, CONFLICT, [L]) && OnChain(AndOp, CONFLICT, [R])
    ensures Dups2(AndOp, CONFLICT, [L], [R]).0 == Put(CONFLICT, [L], Sym(SymNo))
  {
    EitherIsFixed();
    OneNegationIsNotEnough(SYM_A, SYM_B);
    CutByBoth(AndOp, EITHER, Not(SYM_A), Not(SYM_B));
  }

  /** The first pass leaves it as it is. */
  lemma ConflictIsDupFree()
    ensures DupFree(CONFLICT)
  {
    forall x | IsOperand(AndOp, CONFLICT, x)
      ensures At(CONFLICT, x) == EITHER || At(CONFLICT, x) == Not(SYM_A) || At(CONFLICT, x) == Not(SYM_B)
    {
      ConflictOperand(x);
    }
    forall p, q | IsOperand(AndOp, CONFLICT, p) && IsOperand(AndOp, CONFLICT, q) && p != q
      ensures Join(AndOp, At(CONFLICT, p), At(CONFLICT, q)).None?
    {
      ConflictOperand(p);
      ConflictOperand(q);
      ConflictJoins();
    }
    EitherIsDupFree();
  }

  lemma ConflictOperand(x: Path)
    requires IsOperand(AndOp, CONFLICT, x)
    ensures (x == [L] && At(CONFLICT, x) == EITHER) || (x == [R, L] && At(CONFLICT, x) == Not(SYM_A))
         || (x == [R, R] && At(CONFLICT, x) == Not(SYM_B))
  {
    ThreeOperands(AndOp, EITHER, Not(SYM_A), Not(SYM_B));
    if x[0] == L {
      assert x == [L] + x[1..] && OnChain(AndOp, EITHER, x[1..]);
    } else {
      PairOperands(AndOp, Not(SYM_A), Not(SYM_B), x[1..]);
      assert x == [R] + x[1..];
    }
  }

  lemma ConflictJoins()
    ensures JoinAnd(EITHER, Not(SYM_A)).None? && JoinAnd(EITHER, Not(SYM_B)).None?
    ensures JoinAnd(Not(SYM_A), EITHER).None? && JoinAnd(Not(SYM_B), EITHER).None?
    ensures JoinAnd(Not(SYM_A), Not(SYM_B)).None? && JoinAnd(Not(SYM_B), Not(SYM_A)).None?
  {}

  lemma EitherIsDupFree()
    ensures DupFree(EITHER)
  {
    forall p, q | IsOperand(OrOp, EITHER, p) && IsOperand(OrOp, EITHER, q) && p != q
      ensures Join(OrOp, At(EITHER, p), At(EITHER, q)).None?
    {
      PairOperands(OrOp, SYM_A, SYM_B, p);
      PairOperands(OrOp, SYM_A, SYM_B, q);
    }
    forall p | IsOperand(OrOp, EITHER, p) ensures DupFree(At(EITHER, p)) { PairOperands(OrOp, SYM_A, SYM_B, p); }
  }

  /** The full pass really loses a mod: with A at mod and B at no, the conjunction
      of `A || B` and `!A && !B` is worth mod, and what remains is worth no. */
  lemma CutLosesMod(env: Env)
    requires WellTyped(env)
    requires env.tri(SYM_A.sym) == MOD && env.tri(SYM_B.sym) == NO
    ensures Value(CONFLICT, env) == MOD
    ensures Value(Dups2(AndOp, CONFLICT, [], []).0, env) == NO
  {
    assert Value(SYM_A, env) == MOD && Value(SYM_B, env) == NO;
    assert Value(EITHER, env) == MOD;
    assert Value(Not(SYM_A), env) == MOD && Value(Not(SYM_B), env) == YES;
    assert Value(NEITHER, env) == MOD;
    var root: Path := [];
    assert root + [L] == [L] && root + [R] == [R];
    ConflictIsCut();
    var cut := Put(CONFLICT, [L], Sym(SymNo));
    assert Value(cut, env) == NO;
    assert Dups2(AndOp, CONFLICT, [L], [L]) == (CONFLICT, 0);
    var x := Dups2(AndOp, CONFLICT, [L], root);
    SameChainAt(AndOp, CONFLICT, Dups2(AndOp, CONFLICT, [L], [R]).0, [L]);
    CutDecides(AndOp, cut, [L], root, env);
    assert Value(x.0, env) == NO;
    SameChainAt(AndOp, CONFLICT, x.0, [R]);
    Dups2Decides(AndOp, x.0, [R], root, env);
  }

  lemma OneNegationIsNotEnough(a: Expr, b: Expr)
    requires a.Sym? && b.Sym? && !IsYmn(a.sym) && !IsYmn(b.sym) && a != b
    ensures !Contradicts(AndOp, Bin(OrOp, a, b), Not(a))
    ensures !Contradicts(AndOp, Bin(OrOp, a, b), Not(b))
    ensures Contradicts(AndOp, Bin(OrOp, a, b), Bin(AndOp, Not(a), Not(b)))
  {
    var yes := Sym(SymYes);
    var n := Bin(AndOp, Not(a), Not(b));
    assert IsNnf(n);
    NnfIsFixed(n);
    assert TransformExpr(Not(Bin(OrOp, a, b))) == n;
    assert ExprEq(Not(a), Not(a)) && ExprEq(Not(b), Not(b)) && !ExprEq(Not(a), Not(b)) && !ExprEq(Not(b), Not(a));
    assert ExtractEq(AndOp, None, Not(a), Not(a)) == Extraction(Some(Not(a)), yes, yes);
    assert ExtractEq(AndOp, Some(Not(a)), Not(b), yes) == Extraction(Some(Not(a)), Not(b), yes);
    assert ExtractEq(AndOp, None, Not(a), Not(b)) == Extraction(None, Not(a), Not(b));
    assert ExtractEq(AndOp, None, Not(b), Not(b)) == Extraction(Some(Not(b)), yes, yes);
    assert EliminateYn(Bin(AndOp, yes, Not(b))) == Not(b);
    assert EliminateYn(Bin(AndOp, Not(a), yes)) == Not(a);
    assert ExtractEq(AndOp, Some(Not(a)), yes, Not(b)) == Extraction(Some(Not(a)), yes, Not(b));
    assert ExtractEq(AndOp, None, Not(a), n) == Extraction(Some(Not(a)), yes, Bin(AndOp, yes, Not(b)));
    assert ExtractEq(AndOp, Some(Not(a)), Not(b), yes) == Extraction(Some(Not(a)), Not(b), yes);
    assert ExtractEq(AndOp, Some(Not(a)), Not(b), Bin(AndOp, yes, Not(b))).a == yes;
  }
}
