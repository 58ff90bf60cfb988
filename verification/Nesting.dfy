/** When menu_finalize nests an entry below a symbol, and what that says about the
    two conditions (expr_trans_compare in expr.c, the test in menu.c). */
module Nesting {
  import opened Tristates
  import opened Exprs
  import opened Equality
  import opened Likeness
  import opened Transform
  import opened Simplifier

  /** expr_trans_compare(e, rel, s), for an expression that is not NULL. */
  function TransCompare(e: Expr, rel: Rel, s: Symbol): Expr {
    match e
    case Bin(op, l, r) =>
      var a, b := TransCompare(l, Equal, s), TransCompare(r, Equal, s);
      var x := if s.SymYes? then Bin(op, a, b) else if s.SymNo? then Bin(Dual(op), a, b) else e;
      if rel == Unequal then Not(x) else x
    case Not(a) => TransCompare(a, Opposite(rel), s)
    case Cmp(_, _, _) =>
      if s.SymYes? then (if rel == Equal then e else Not(e))
      else if s.SymNo? then (if rel == Equal then Not(e) else e)
      else if rel == Equal then Sym(SymNo) else Sym(SymYes)
    case Sym(x) => Cmp(rel, x, s)
  }

  /** The same with NULL, compared as a plain constant. */
  function OptTransCompare(e: Option<Expr>, rel: Rel, s: Symbol): Expr {
    match e
    case None => if rel == Unequal then Not(Sym(s)) else Sym(s)
    case Some(x) => TransCompare(x, rel, s)
  }

  /** `e != n` as menu_finalize writes it. */
  function NotNo(e: Option<Expr>): Expr { OptTransCompare(e, Unequal, SymNo) }

  /** A comparison with n is never mod. */
  lemma {:induction false} CompareIsDecided(e: Expr, rel: Rel, env: Env)
    requires WellTyped(env)
    ensures Value(TransCompare(e, rel, SymNo), env) != MOD
  {
    match e
    case Bin(op, l, r) => CompareIsDecided(l, Equal, env); CompareIsDecided(r, Equal, env);
    case Not(a) => CompareIsDecided(a, Opposite(rel), env);
    case _ =>
  }

  /** The two-valued reading: a symbol counts unless its string is n, that is, for a
      symbol with a tristate value, unless it is no; the connectives are Boolean. */
  predicate Promoted(e: Expr, env: Env) {
    match e
    case Sym(s) => env.str(s) != "n"
    case Not(a) => !Promoted(a, env)
    case Bin(op, l, r) =>
      if op == AndOp then Promoted(l, env) && Promoted(r, env) else Promoted(l, env) || Promoted(r, env)
    case Cmp(_, _, _) => Value(e, env) != NO
  }

  predicate OptPromoted(e: Option<Expr>, env: Env) { e.Some? ==> Promoted(e.value, env) }

  /** The two-valued reading says whether the expression is no. */
  predicate ReadsRight(e: Expr, env: Env) { Promoted(e, env) <==> Value(e, env) != NO }

  predicate OptReadsRight(e: Option<Expr>, env: Env) { e.Some? ==> ReadsRight(e.value, env) }

  /** What a comparison with n computes, in every environment: the two-valued reading. */
  lemma {:induction false} CompareIsPromoted(e: Expr, env: Env)
    requires WellTyped(env)
    ensures Value(TransCompare(e, Unequal, SymNo), env) == if Promoted(e, env) then YES else NO
    ensures Value(TransCompare(e, Equal, SymNo), env) == if Promoted(e, env) then NO else YES
  {
    match e
    case Bin(op, l, r) => CompareIsPromoted(l, env); CompareIsPromoted(r, env);
    case Not(a) => CompareIsPromoted(a, env);
    case Sym(_) =>
    case Cmp(_, _, _) =>
  }

  /** So it is what it says if and only if the two-valued reading is right. */
  lemma CompareIsExact(e: Expr, env: Env)
    requires WellTyped(env)
    ensures Value(TransCompare(e, Unequal, SymNo), env) == (if Value(e, env) != NO then YES else NO) <==> ReadsRight(e, env)
    ensures Value(TransCompare(e, Equal, SymNo), env) == (if Value(e, env) == NO then YES else NO) <==> ReadsRight(e, env)
  {
    CompareIsPromoted(e, env);
  }

  /** No negated part of the expression is mod. */
  ghost predicate NoNegatedMod(e: Expr, env: Env) {
    match e
    case Bin(_, l, r) => NoNegatedMod(l, env) && NoNegatedMod(r, env)
    case Not(a) => Value(a, env) != MOD && NoNegatedMod(a, env)
    case _ => true
  }

  /** All symbols are worth something as a tristate, none is a string or number. */
  predicate OnlyLogical(e: Expr) {
    match e
    case Bin(_, l, r) => OnlyLogical(l) && OnlyLogical(r)
    case Not(a) => OnlyLogical(a)
    case Sym(s) => IsLogical(s) || IsYmn(s)
    case Cmp(_, _, _) => true
  }

  /** It is right, for one, where no negated part is mod. */
  lemma {:induction false} NoNegatedModReadsRight(e: Expr, env: Env)
    requires WellTyped(env) && OnlyLogical(e) && NoNegatedMod(e, env)
    ensures ReadsRight(e, env)
  {
    match e
    case Bin(op, l, r) => NoNegatedModReadsRight(l, env); NoNegatedModReadsRight(r, env);
    case Not(a) => NoNegatedModReadsRight(a, env);
    case Sym(s) => assert TypedAt(env, s);
    case Cmp(_, _, _) =>
  }

  /** For a negated symbol the comparison is exact if and only if the symbol is not mod; a
      second negation makes it exact again. */
  lemma CompareOfNegation(s: Symbol, env: Env)
    requires WellTyped(env) && IsLogical(s)
    ensures Value(TransCompare(Not(Sym(s)), Unequal, SymNo), env) == (if Value(Not(Sym(s)), env) != NO then YES else NO)
            <==> env.tri(s) != MOD
    ensures ReadsRight(Not(Sym(s)), env) <==> env.tri(s) != MOD
    ensures ReadsRight(Not(Not(Sym(s))), env)
  {
    assert TypedAt(env, s);
    assert Promoted(Sym(s), env) <==> env.tri(s) != NO;
    assert Promoted(Not(Sym(s)), env) <==> env.tri(s) == NO;
    assert Value(Not(Sym(s)), env) == TriNot(env.tri(s));
    CompareIsExact(Not(Sym(s)), env);
  }

  /** Where the condition of an entry holds, as far as the comparison with n can
      tell, that of the symbol's own prompt holds; or the condition is visibly
      impossible without the symbol. */
  ghost predicate Justified(dep: Expr, s: Symbol, base: Option<Expr>) {
    || DependsSymbol(dep, s)
    || forall env :: WellTyped(env) ==> Value(NotNo(Some(dep)), env) <= Value(NotNo(base), env)
  }

  /** What nesting means for the reader of the menu, in every environment. An entry that
      depends on the symbol is out of reach when the symbol is no. Any other is out of
      reach when the symbol's prompt is, in the two-valued reading; so if it is in reach
      all the same, this reading is wrong about one of the two conditions. */
  lemma NestedIsOutOfReach(dep: Expr, s: Symbol, base: Option<Expr>, env: Env)
    requires WellTyped(env) && Justified(dep, s, base)
    ensures DependsSymbol(dep, s) && (IsLogical(s) || IsYmn(s)) && env.tri(s) == NO ==> Value(dep, env) == NO
    ensures !DependsSymbol(dep, s) && Promoted(dep, env) ==> OptPromoted(base, env)
    ensures !DependsSymbol(dep, s) && OptValue(base, env) == NO && Value(dep, env) != NO ==>
              !ReadsRight(dep, env) || !OptReadsRight(base, env)
  {
    if DependsSymbol(dep, s) {
      if IsLogical(s) || IsYmn(s) { DependsNeeds(dep, s, env); }
    } else {
      CompareIsPromoted(dep, env);
      if base.Some? { CompareIsPromoted(base.value, env); }
    }
  }

  /** De Morgan, the halves first. */
  lemma TransformOfNegation(op: Op, l: Expr, r: Expr)
    ensures TransformExpr(Not(Bin(op, l, r)))
         == Bin(Dual(op), TransformExpr(Not(TransformExpr(l))), TransformExpr(Not(TransformExpr(r))))
  {
    assert TransformExpr(Bin(op, l, r)) == Bin(op, TransformExpr(l), TransformExpr(r));
  }

  lemma NegationIsCompared(s: Symbol)
    ensures TransCompare(Not(Sym(s)), Equal, SymNo) == Cmp(Unequal, s, SymNo)
  {
    assert TransCompare(Sym(s), Unequal, SymNo) == Cmp(Unequal, s, SymNo);
  }

  /** What the test compares. */
  lemma ExampleReduced(a: Symbol, s: Symbol, other: Expr)
    requires IsTristate(a) && IsLogical(s) && a != s
    requires other == if IsBoolean(s) then Not(Sym(s)) else Cmp(Equal, s, SymNo)
    ensures ReducedOf(Some(Bin(AndOp, Not(Sym(a)), Not(Sym(s))))) == Bin(AndOp, Cmp(Equal, a, SymNo), other)
    ensures ReducedOf(Some(Cmp(Equal, a, SymNo))) == Cmp(Equal, a, SymNo)
  {
    var dep, base := Bin(AndOp, Not(Sym(a)), Not(Sym(s))), Cmp(Equal, a, SymNo);
    var l, r := Cmp(Unequal, a, SymNo), Cmp(Unequal, s, SymNo);
    assert NotNo(Some(dep)) == Not(Bin(OrOp, l, r)) by {
      NegationIsCompared(a);
      NegationIsCompared(s);
      assert NotNo(Some(dep)) == TransCompare(dep, Unequal, SymNo);
    }
    TransformOfNegation(OrOp, l, r);
    assert TransformExpr(Not(TransformExpr(l))) == base && TransformExpr(Not(TransformExpr(r))) == other;
    PairIsSimple(AndOp, base, other);
  }

  /** The entry with the condition `!A && !S` passes the test for S with the prompt
      condition `A = n`: the common part `A = n` cancels. */
  lemma ExampleQualifies(a: Symbol, s: Symbol)
    requires IsTristate(a) && IsLogical(s) && a != s
    ensures Qualifies(Some(Bin(AndOp, Not(Sym(a)), Not(Sym(s)))), s, Some(Cmp(Equal, a, SymNo)))
  {
    var dep, base := Bin(AndOp, Not(Sym(a)), Not(Sym(s))), Cmp(Equal, a, SymNo);
    assert ContainsSymbol(dep, s) by { assert ContainsSymbol(Not(Sym(s)), s); }
    var other := if IsBoolean(s) then Not(Sym(s)) else Cmp(Equal, s, SymNo);
    ExampleReduced(a, s, other);
    assert CancelPairs(AndOp, base, base) == (Sym(SymYes), Sym(SymYes));
    assert CancelPairs(AndOp, other, Sym(SymYes)) == (other, Sym(SymYes));
    assert CancelPairs(AndOp, Bin(AndOp, base, other), base).1 == Sym(SymYes);
    assert EliminateEq(Bin(AndOp, base, other), base).1 == Sym(SymYes);
  }

  lemma ExamplePromoted(a: Symbol, s: Symbol, env: Env)
    requires WellTyped(env) && IsLogical(a)
    ensures Promoted(Bin(AndOp, Not(Sym(a)), Not(Sym(s))), env) ==> Promoted(Cmp(Equal, a, SymNo), env)
  {
    assert TypedAt(env, a);
    assert Promoted(Not(Sym(a)), env) == !Promoted(Sym(a), env);
  }

  /** So that does happen: where A is m and S is n, the entry goes below S and is in reach,
      and the prompt of S is not. */
  lemma NestedCanBeInReach(a: Symbol, s: Symbol, env: Env)
    requires WellTyped(env) && IsLogical(a) && IsLogical(s) && a != s && env.tri(a) == MOD && env.tri(s) == NO
    ensures var dep, base := Bin(AndOp, Not(Sym(a)), Not(Sym(s))), Cmp(Equal, a, SymNo);
            && Qualifies(Some(dep), s, Some(base)) && Justified(dep, s, Some(base))
            && Value(dep, env) == MOD && Value(base, env) == NO
  {
    var dep, base := Bin(AndOp, Not(Sym(a)), Not(Sym(s))), Cmp(Equal, a, SymNo);
    forall e | WellTyped(e) ensures Value(NotNo(Some(dep)), e) <= Value(NotNo(Some(base)), e) {
      CompareIsPromoted(dep, e);
      CompareIsPromoted(base, e);
      ExamplePromoted(a, s, e);
    }
    assert TypedAt(env, a) && TypedAt(env, s);
    ExampleQualifies(a, s);
    assert Value(Sym(a), env) == MOD && Value(Sym(s), env) == NO;
    assert Value(Not(Sym(a)), env) == MOD && Value(Not(Sym(s)), env) == YES;
  }

  /** `eliminate_dups(transform(e != n))`. */
  function ReducedOf(e: Option<Expr>): Expr { Simplify(TransformExpr(NotNo(e))) }

  method Reduced(e: Option<Expr>) returns (r: Expr)
    ensures r == ReducedOf(e)
    ensures forall env :: WellTyped(env) ==> Value(r, env) == Value(NotNo(e), env)
  {
    r := EliminateDups(TransformExpr(NotNo(e)));
    forall env | WellTyped(env) ensures Value(r, env) == Value(NotNo(e), env) {
      TransformValue(NotNo(e), env);
      if e.Some? { CompareIsDecided(e.value, Unequal, env); }
      assert Decides(Value(TransformExpr(NotNo(e)), env), Value(r, env));
    }
  }

  /** The test of menu_finalize: the condition mentions the symbol, and either needs it
      or has nothing left of the prompt's condition once common parts are cancelled. */
  predicate Qualifies(dep: Option<Expr>, s: Symbol, base: Option<Expr>) {
    && dep.Some? && ContainsSymbol(dep.value, s)
    && (DependsSymbol(dep.value, s) || EliminateEq(ReducedOf(dep), ReducedOf(base)).1 == Sym(SymYes))
  }

  lemma {:induction false} YesStays(op: Op, d: Expr)
    ensures CancelPairs(op, d, Sym(SymYes)).1 == Sym(SymYes)
    decreases Size(d)
  {
    if IsOp(op, d) {
      YesStays(op, d.left);
      YesStays(op, d.right);
    }
  }

  lemma YesCancelled(d: Expr)
    ensures EliminateEq(d, Sym(SymYes)).1 == Sym(SymYes)
  {
    if d.Bin? { YesStays(d.op, d); }
    assert CancelBoth(d, Sym(SymYes)).1 == Sym(SymYes);
  }

  /** Below a symbol whose prompt has no condition goes every later entry that mentions it. */
  lemma WithoutConditionIff(dep: Expr, s: Symbol)
    ensures Qualifies(Some(dep), s, None) <==> s in Symbols(dep)
  {
    ContainsIsMention(dep, s);
    assert TransformExpr(NotNo(None)) == Sym(SymYes);
    assert ReducedOf(None) == Sym(SymYes);
    YesCancelled(ReducedOf(Some(dep)));
  }

  /** Cancelling leaves nothing of the second of two conjunctions if and only if the first
      has all of its operands, in any order and grouping. */
  lemma CancelsIff(d: Expr, r: Expr)
    requires Pure(d) && Pure(r) && !IsYn(d) && !IsYn(r) && !IsOp(OrOp, d) && !IsOp(OrOp, r)
    requires d.Bin? || r.Bin?
    ensures EliminateEq(d, r).1 == Sym(SymYes) <==> Live(AndOp, r) <= Live(AndOp, d)
  {
    PureIsTidy(AndOp, d);
    PureIsTidy(AndOp, r);
    CancelAll(AndOp, d, r);
    var x := CancelPairs(AndOp, d, r);
    TidyReduced(AndOp, x.1);
    NoneLeft(Live(AndOp, r), Live(AndOp, d));
    OneConjunction(d, r);
    assert Reduct(AndOp, false, Live(AndOp, r) - Live(AndOp, d), EliminateYn(x.1));
  }

  lemma OneConjunction(d: Expr, r: Expr)
    requires !IsOp(OrOp, d) && !IsOp(OrOp, r) && (d.Bin? || r.Bin?)
    ensures CancelBoth(d, r) == CancelPairs(AndOp, d, r)
  {
    if !r.Bin? { LeafAgainst(d, r); }
  }

  /** What is no chain is not made one. */
  lemma {:induction false} LeafAgainst(d: Expr, r: Expr)
    requires !r.Bin?
    ensures !CancelPairs(AndOp, d, r).1.Bin?
    decreases Size(d)
  {
    if IsOp(AndOp, d) {
      LeafAgainst(d.left, r);
      LeafAgainst(d.right, CancelPairs(AndOp, d.left, r).1);
    }
  }

  /** The test: may the entry with the condition `dep` go below `s`, whose prompt has
      the condition `base`, reduced to `reduced`? */
  method ShouldNest(dep: Option<Expr>, s: Symbol, reduced: Expr, ghost base: Option<Expr>) returns (b: bool)
    requires reduced == ReducedOf(base)
    requires forall env :: WellTyped(env) ==> Value(reduced, env) == Value(NotNo(base), env)
    ensures b == Qualifies(dep, s, base)
    ensures b ==> s in Symbols(dep.value) && Justified(dep.value, s, base)
    ensures dep.Some? && DependsSymbol(dep.value, s) ==> b
  {
    if dep.None? || !ContainsSymbol(dep.value, s) {
      if dep.Some? && DependsSymbol(dep.value, s) { DependsContains(dep.value, s); }
      return false;
    }
    ContainsIsMention(dep.value, s);
    if DependsSymbol(dep.value, s) { return true; }
    var d := Reduced(dep);
    var x := EliminateEq(d, reduced);
    b := x.1 == Sym(SymYes);
    if b {
      forall env | WellTyped(env) ensures Value(NotNo(dep), env) <= Value(NotNo(base), env) {
        EliminateEqSound(d, reduced, env);
      }
    }
  }

  lemma {:induction false} DependsContains(e: Expr, s: Symbol)
    requires DependsSymbol(e, s)
    ensures ContainsSymbol(e, s)
  {
    if e.Bin? {
      if DependsSymbol(e.left, s) { DependsContains(e.left, s); } else { DependsContains(e.right, s); }
    }
  }
}
