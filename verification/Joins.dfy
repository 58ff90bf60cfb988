/** Merging two operands of a chain (expr_join_or, expr_join_and) and pulling out
    common operands (expr_extract_eq), all in expr.c. */
module Joins {
  import opened Tristates
  import opened Exprs
  import opened Equality
  import opened Transform

  /** The symbol that the left operand of a join is about. */
  function LeftSubject(e: Expr): Option<Symbol> {
    match e
    case Bin(_, _, _) => None
    case Not(Cmp(_, l, _)) => Some(l)
    case Not(Sym(s)) => Some(s)
    case Not(_) => None
    case Sym(s) => Some(s)
    case Cmp(_, l, _) => Some(l)
  }

  /** The right operand may be negated only as a plain symbol. */
  function RightSubject(e: Expr): Option<Symbol> {
    match e
    case Bin(_, _, _) => None
    case Not(Sym(s)) => Some(s)
    case Not(_) => None
    case Sym(s) => Some(s)
    case Cmp(_, l, _) => Some(l)
  }

  /** Both operands are about one boolean or tristate symbol. */
  predicate SameSubject(a: Expr, b: Expr) {
    LeftSubject(a).Some? && LeftSubject(a) == RightSubject(b) && IsLogical(LeftSubject(a).value)
  }

  /** Both are comparisons `rel`, one with `x` and the other with `y`. */
  predicate BothTest(a: Expr, b: Expr, rel: Rel, x: Symbol, y: Symbol) {
    && a.Cmp? && b.Cmp? && a.rel == rel && b.rel == rel
    && ((a.rhs == x && b.rhs == y) || (a.rhs == y && b.rhs == x))
  }

  /** One is the plain symbol, the other a comparison `rel` with `x`. */
  predicate SymbolAndTest(a: Expr, b: Expr, rel: Rel, x: Symbol) {
    || (a.Sym? && b.Cmp? && b.rel == rel && b.rhs == x)
    || (b.Sym? && a.Cmp? && a.rel == rel && a.rhs == x)
  }

  predicate SymbolAndNegation(a: Expr, b: Expr) {
    (a.Not? && a.arg.Sym? && b.Sym?) || (b.Not? && b.arg.Sym? && a.Sym?)
  }

  /** expr_join_or. */
  function JoinOr(a: Expr, b: Expr): Option<Expr> {
    if ExprEq(a, b) then Some(a)
    else if !SameSubject(a, b) then None
    else
      var s := LeftSubject(a).value;
      if IsTristate(s) && BothTest(a, b, Equal, SymYes, SymMod) then Some(Cmp(Unequal, s, SymNo))
      else if IsTristate(s) && BothTest(a, b, Equal, SymYes, SymNo) then Some(Cmp(Unequal, s, SymMod))
      else if IsTristate(s) && BothTest(a, b, Equal, SymMod, SymNo) then Some(Cmp(Unequal, s, SymYes))
      else if IsBoolean(s) && SymbolAndNegation(a, b) then Some(Sym(SymYes))
      else None
  }

  /** expr_join_and. */
  function JoinAnd(a: Expr, b: Expr): Option<Expr> {
    if ExprEq(a, b) then Some(a)
    else if !SameSubject(a, b) then None
    else
      var s := LeftSubject(a).value;
      if SymbolAndTest(a, b, Equal, SymYes) then Some(Cmp(Equal, s, SymYes))
      else if SymbolAndTest(a, b, Unequal, SymNo) then Some(Sym(s))
      else if SymbolAndTest(a, b, Unequal, SymMod) then Some(Cmp(Equal, s, SymYes))
      else if !IsTristate(s) then None
      else if a.Cmp? && b.Cmp? && a.rel == Equal && b.rel == Unequal && IsConst(a.rhs) && IsConst(b.rhs) then
        Some(if a.rhs != b.rhs then Cmp(Equal, s, a.rhs) else Sym(SymNo))
      else if a.Cmp? && b.Cmp? && a.rel == Unequal && b.rel == Equal && IsConst(a.rhs) && IsConst(b.rhs) then
        Some(if b.rhs != a.rhs then Cmp(Equal, s, b.rhs) else Sym(SymNo))
      else if BothTest(a, b, Unequal, SymYes, SymNo) then Some(Cmp(Equal, s, SymMod))
      else if BothTest(a, b, Unequal, SymYes, SymMod) then Some(Cmp(Equal, s, SymNo))
      else if BothTest(a, b, Unequal, SymMod, SymNo) then Some(Cmp(Equal, s, SymYes))
      else None
  }

  function Join(op: Op, a: Expr, b: Expr): (r: Option<Expr>)
    ensures r.Some? ==> Size(r.value) <= Size(a)
    ensures r.Some? && a.Bin? ==> r.value == a
    ensures r.Some? && r.value.Bin? ==> r.value == a
    ensures r.Some? && NegatesSymbols(a) ==> NegatesSymbols(r.value)
  {
    if op == AndOp then JoinAnd(a, b) else JoinOr(a, b)
  }

  predicate IsTestOf(e: Expr, s: Symbol) { e.Cmp? && e.lhs == s }

  /** Which comparisons of one tristate symbol with y, m or n are merged: in a disjunction
      two for equality; in a conjunction any two that are not both for equality. */
  lemma TestsJoin(s: Symbol, a: Expr, b: Expr)
    requires IsTristate(s) && IsTestOf(a, s) && IsTestOf(b, s) && IsYmn(a.rhs) && IsYmn(b.rhs)
    ensures Join(OrOp, a, b).Some? <==> a == b || (a.rel == Equal && b.rel == Equal)
    ensures Join(AndOp, a, b).Some? <==> a == b || a.rel == Unequal || b.rel == Unequal
  {}

  /** A comparison for equality with a constant and one for inequality, in a conjunction. */
  lemma OppositeTestsJoin(s: Symbol, a: Expr, b: Expr)
    requires IsTristate(s) && IsTestOf(a, s) && IsTestOf(b, s) && IsConst(a.rhs) && IsConst(b.rhs) && a.rel != b.rel
    ensures Join(AndOp, a, b).Some? && Join(OrOp, a, b).None?
  {}

  /** A boolean or tristate symbol and a comparison of it, in either order: merged in a
      conjunction, with `= y`, `!= n` or `!= m`. */
  lemma SymbolAndTestJoin(s: Symbol, t: Expr)
    requires IsLogical(s) && IsTestOf(t, s)
    ensures var joined := if t.rel == Equal then t.rhs == SymYes else t.rhs == SymNo || t.rhs == SymMod;
      && (Join(AndOp, Sym(s), t).Some? <==> joined) && (Join(AndOp, t, Sym(s)).Some? <==> joined)
      && Join(OrOp, Sym(s), t).None? && Join(OrOp, t, Sym(s)).None?
  {}

  /** A boolean symbol or its negation is merged to y, a tristate one is not. */
  lemma SymbolAndNegationJoin(s: Symbol)
    ensures Join(OrOp, Sym(s), Not(Sym(s))) == (if IsBoolean(s) then Some(Sym(SymYes)) else None)
    ensures Join(OrOp, Not(Sym(s)), Sym(s)) == (if IsBoolean(s) then Some(Sym(SymYes)) else None)
    ensures Join(AndOp, Sym(s), Not(Sym(s))).None? && Join(AndOp, Not(Sym(s)), Sym(s)).None?
  {}

  /** Chains, and operands about different symbols, are merged only if they are equal. */
  lemma OthersJoin(op: Op, a: Expr, b: Expr)
    requires a.Bin? || b.Bin? || Symbols(a) !! Symbols(b)
    ensures Join(op, a, b) == if ExprEq(a, b) then Some(a) else None
  {}

  /** Distinct constants have distinct strings. */
  lemma ConstStrings(s: Symbol, t: Symbol, env: Env)
    requires WellTyped(env) && IsConst(s) && IsConst(t)
    ensures env.str(s) == env.str(t) <==> s == t
  {
    assert TypedAt(env, s) && TypedAt(env, t);
  }

  lemma JoinOrValue(a: Expr, b: Expr, env: Env)
    requires WellTyped(env) && JoinOr(a, b).Some?
    ensures Value(JoinOr(a, b).value, env) == TriOr(Value(a, env), Value(b, env))
  {
    if ExprEq(a, b) {
      ExprEqSound(a, b, env);
    } else {
      assert TypedAt(env, LeftSubject(a).value);
    }
  }

  lemma JoinAndValue(a: Expr, b: Expr, env: Env)
    requires WellTyped(env) && JoinAnd(a, b).Some?
    ensures Value(JoinAnd(a, b).value, env) == TriAnd(Value(a, env), Value(b, env))
  {
    if ExprEq(a, b) {
      ExprEqSound(a, b, env);
    } else {
      assert TypedAt(env, LeftSubject(a).value);
      if a.Cmp? && b.Cmp? && IsConst(a.rhs) && IsConst(b.rhs) { ConstStrings(a.rhs, b.rhs, env); }
    }
  }

  /** The merged operand is worth exactly what the two were worth together. */
  lemma JoinValue(op: Op, a: Expr, b: Expr, env: Env)
    requires WellTyped(env) && Join(op, a, b).Some?
    ensures Value(Join(op, a, b).value, env) == Apply(op, Value(a, env), Value(b, env))
  {
    if op == AndOp { JoinAndValue(a, b, env); } else { JoinOrValue(a, b, env); }
  }

  /** expr_extract_eq: the chain of the operands taken out so far, and both trees. */
  datatype Extraction = Extraction(common: Option<Expr>, a: Expr, b: Expr)

  function ExtractEq(op: Op, common: Option<Expr>, a: Expr, b: Expr): (r: Extraction)
    ensures Size(r.a) <= Size(a) && Size(r.b) <= Size(b)
    decreases Size(a) + Size(b)
  {
    if IsOp(op, a) then
      var x := ExtractEq(op, common, a.left, b);
      var y := ExtractEq(op, x.common, a.right, x.b);
      Extraction(y.common, Bin(op, x.a, y.a), y.b)
    else if IsOp(op, b) then
      var x := ExtractEq(op, common, a, b.left);
      var y := ExtractEq(op, x.common, x.a, b.right);
      Extraction(y.common, y.a, Bin(op, x.b, y.b))
    else if ExprEq(a, b) then
      Extraction(Alloc(op, common, Some(a)), Sym(Identity(op)), Sym(Identity(op)))
    else Extraction(common, a, b)
  }

  /** expr_extract_eq_and and expr_extract_eq_or. */
  function ExtractCommon(op: Op, a: Expr, b: Expr): Extraction {
    var x := ExtractEq(op, None, a, b);
    if x.common.None? then x else Extraction(x.common, EliminateYn(x.a), EliminateYn(x.b))
  }

  /** A missing chain leaves the other operand as it is. */
  ghost function ChainValue(op: Op, e: Option<Expr>, env: Env): Tristate {
    if e.None? then env.tri(Identity(op)) else Value(e.value, env)
  }

  /** One value `c` was taken out of both sides and put into the chain. */
  lemma {:induction false} ExtractEqSound(op: Op, common: Option<Expr>, a: Expr, b: Expr, env: Env)
    returns (c: Tristate)
    requires WellTyped(env)
    ensures var r := ExtractEq(op, common, a, b);
            && Restores(op, a, b, (r.a, r.b), c, env)
            && ChainValue(op, r.common, env) == Apply(op, ChainValue(op, common, env), c)
    decreases Size(a) + Size(b)
  {
    if IsOp(op, a) {
      var x := ExtractEq(op, common, a.left, b);
      var y := ExtractEq(op, x.common, a.right, x.b);
      var c1 := ExtractEqSound(op, common, a.left, b, env);
      var c2 := ExtractEqSound(op, x.common, a.right, x.b, env);
      c := Apply(op, c1, c2);
      RestoresSplit(op, a.left, a.right, b, (x.a, x.b), (y.a, y.b), c1, c2, env);
      Regroup(op, ChainValue(op, common, env), c1, c2, c2);
    } else if IsOp(op, b) {
      var x := ExtractEq(op, common, a, b.left);
      var y := ExtractEq(op, x.common, x.a, b.right);
      var c1 := ExtractEqSound(op, common, a, b.left, env);
      var c2 := ExtractEqSound(op, x.common, x.a, b.right, env);
      c := Apply(op, c1, c2);
      RestoresSplit(op, b.left, b.right, a, (x.b, x.a), (y.b, y.a), c1, c2, env);
      Regroup(op, ChainValue(op, common, env), c1, c2, c2);
    } else {
      c := ExtractLeafSound(op, common, a, b, env);
    }
  }

  lemma ExtractLeafSound(op: Op, common: Option<Expr>, a: Expr, b: Expr, env: Env)
    returns (c: Tristate)
    requires WellTyped(env) && !IsOp(op, a) && !IsOp(op, b)
    ensures var r := ExtractEq(op, common, a, b);
            && Restores(op, a, b, (r.a, r.b), c, env)
            && ChainValue(op, r.common, env) == Apply(op, ChainValue(op, common, env), c)
  {
    ConstantOperand(op, Sym(Identity(op)), env);
    if ExprEq(a, b) {
      ExprEqSound(a, b, env);
      c := Value(a, env);
    } else {
      c := env.tri(Identity(op));
    }
  }

  /** What was taken out is a factor of both arguments: each is the result on its
      side combined with the common chain. */
  lemma ExtractCommonValue(op: Op, a: Expr, b: Expr, env: Env)
    requires WellTyped(env)
    ensures var x := ExtractCommon(op, a, b);
            && Value(a, env) == Apply(op, Value(x.a, env), ChainValue(op, x.common, env))
            && Value(b, env) == Apply(op, Value(x.b, env), ChainValue(op, x.common, env))
  {
    var x := ExtractEq(op, None, a, b);
    var c := ExtractEqSound(op, None, a, b, env);
    ConstantOperand(op, Sym(Identity(op)), env);
    EliminateYnValue(x.a, env);
    EliminateYnValue(x.b, env);
  }
}
