/** Negation normal form (expr_transform), the loss of precision that is harmless
    for boolean symbols (expr_trans_bool), and the two syntactic dependency tests. */
module Transform {
  import opened Tristates
  import opened Exprs
  import opened Equality
  import opened Reflexivity

  /** Termination measure of expr_transform: pushing a negation inwards enlarges
      the tree but takes one operator out of the doubled part. */
  function Weight(e: Expr): (w: nat)
    ensures w >= 1
  {
    match e
    case Sym(_) => 1
    case Not(a) => 2 * Weight(a)
    case Bin(_, l, r) => Weight(l) + Weight(r) + 1
    case Cmp(_, _, _) => 2
  }

  lemma PushingDecreases(op: Op, l: Expr, r: Expr)
    ensures Weight(Bin(Dual(op), Not(l), Not(r))) < Weight(Not(Bin(op, l, r)))
  {
    assert Weight(Not(l)) == 2 * Weight(l) && Weight(Not(r)) == 2 * Weight(r);
  }

  function Opposite(rel: Rel): Rel { if rel == Equal then Unequal else Equal }

  /** A boolean symbol compared with y, m or n. */
  predicate BooleanTest(e: Expr) { e.Cmp? && IsBoolean(e.lhs) && IsYmn(e.rhs) }

  /** The cases E_EQUAL and E_UNEQUAL of expr_transform. */
  function TransformTest(e: Expr): (r: Expr)
    requires e.Cmp?
    ensures Weight(r) <= Weight(e)
  {
    if !BooleanTest(e) then e
    else match e.rhs
      case SymNo => if e.rel == Equal then Not(Sym(e.lhs)) else Sym(e.lhs)
      case SymMod => if e.rel == Equal then Sym(SymNo) else Sym(SymYes)
      case _ => if e.rel == Equal then Sym(e.lhs) else Not(Sym(e.lhs))
  }

  /** expr_transform. */
  function TransformExpr(e: Expr): (r: Expr)
    ensures Weight(r) <= Weight(e)
    decreases Weight(e)
  {
    match e
    case Sym(_) => e
    case Cmp(_, _, _) => TransformTest(e)
    case Bin(op, l, r) => Bin(op, TransformExpr(l), TransformExpr(r))
    case Not(a) =>
      match TransformExpr(a)
      case Not(x) => TransformExpr(x)
      case Cmp(rel, l, r) => Cmp(Opposite(rel), l, r)
      case Bin(op, l, r) =>
        PushingDecreases(op, l, r);
        TransformExpr(Bin(Dual(op), Not(l), Not(r)))
      case Sym(s) =>
        match s
        case SymYes => Sym(SymNo)
        case SymMod => Sym(SymMod)
        case SymNo => Sym(SymYes)
        case _ => Not(Sym(s))
  }

  /** Negations stand only on symbols that are not y, m or n, and no boolean
      symbol is compared with one of these. */
  predicate IsNnf(e: Expr) {
    match e
    case Sym(_) => true
    case Not(a) => a.Sym? && !IsYmn(a.sym)
    case Bin(_, l, r) => IsNnf(l) && IsNnf(r)
    case Cmp(_, _, _) => !BooleanTest(e)
  }

  lemma {:induction false} TransformIsNnf(e: Expr)
    ensures IsNnf(TransformExpr(e))
    decreases Weight(e)
  {
    match e
    case Sym(_) =>
    case Cmp(_, _, _) =>
    case Bin(op, l, r) => TransformIsNnf(l); TransformIsNnf(r);
    case Not(a) =>
      TransformIsNnf(a);
      match TransformExpr(a)
      case Not(x) => TransformIsNnf(x);
      case Bin(op, l, r) =>
        PushingDecreases(op, l, r);
        TransformIsNnf(Bin(Dual(op), Not(l), Not(r)));
      case _ =>
  }

  lemma {:induction false} NnfIsFixed(e: Expr)
    requires IsNnf(e)
    ensures TransformExpr(e) == e
  {
    if e.Bin? {
      NnfIsFixed(e.left);
      NnfIsFixed(e.right);
    }
  }

  /** expr_transform is idempotent; what it leaves alone is exactly normal form. */
  lemma TransformIdempotent(e: Expr)
    ensures TransformExpr(TransformExpr(e)) == TransformExpr(e)
    ensures TransformExpr(e) == e <==> IsNnf(e)
  {
    TransformIsNnf(e);
    NnfIsFixed(TransformExpr(e));
    if IsNnf(e) { NnfIsFixed(e); }
  }

  lemma TransformTestValue(e: Expr, env: Env)
    requires WellTyped(env) && e.Cmp?
    ensures Value(TransformTest(e), env) == Value(e, env)
  {
    assert TypedAt(env, e.lhs);
  }

  lemma DeMorgan(op: Op, a: Tristate, b: Tristate)
    ensures TriNot(Apply(op, a, b)) == Apply(Dual(op), TriNot(a), TriNot(b))
  {}

  /** expr_transform keeps the value. */
  lemma {:induction false} TransformValue(e: Expr, env: Env)
    requires WellTyped(env)
    ensures Value(TransformExpr(e), env) == Value(e, env)
    decreases Weight(e)
  {
    match e
    case Sym(_) =>
    case Cmp(_, _, _) => TransformTestValue(e, env);
    case Bin(op, l, r) => TransformValue(l, env); TransformValue(r, env);
    case Not(a) =>
      TransformValue(a, env);
      match TransformExpr(a)
      case Not(x) => TransformValue(x, env);
      case Bin(op, l, r) =>
        PushingDecreases(op, l, r);
        DeMorgan(op, Value(l, env), Value(r, env));
        TransformValue(Bin(Dual(op), Not(l), Not(r)), env);
      case _ =>
  }

  /** expr_trans_bool. */
  function TransBool(e: Expr): Expr {
    match e
    case Sym(_) => e
    case Not(a) => Not(TransBool(a))
    case Bin(op, l, r) => Bin(op, TransBool(l), TransBool(r))
    case Cmp(rel, l, r) =>
      if rel == Unequal && IsTristate(l) && r == SymNo then Sym(l) else e
  }

  /** No tristate symbol is tested for not being n. */
  predicate NoPresenceTest(e: Expr) {
    match e
    case Sym(_) => true
    case Not(a) => NoPresenceTest(a)
    case Bin(_, l, r) => NoPresenceTest(l) && NoPresenceTest(r)
    case Cmp(rel, l, r) => !(rel == Unequal && IsTristate(l) && r == SymNo)
  }

  /** expr_trans_bool leaves no such test, and leaves exactly those without one alone. */
  lemma {:induction false} TransBoolIff(e: Expr)
    ensures NoPresenceTest(TransBool(e)) && (TransBool(e) == e <==> NoPresenceTest(e))
  {
    match e
    case Sym(_) =>
    case Not(a) => TransBoolIff(a);
    case Bin(_, l, r) => TransBoolIff(l); TransBoolIff(r);
    case Cmp(_, _, _) =>
  }

  /** Negations stand only on symbols. */
  predicate NegatesSymbols(e: Expr) {
    match e
    case Not(a) => a.Sym?
    case Bin(_, l, r) => NegatesSymbols(l) && NegatesSymbols(r)
    case _ => true
  }

  lemma {:induction false} NnfNegatesSymbols(e: Expr)
    requires IsNnf(e)
    ensures NegatesSymbols(e)
  {
    if e.Bin? {
      NnfNegatesSymbols(e.left);
      NnfNegatesSymbols(e.right);
    }
  }

  /** expr_trans_bool may lower yes to mod, but never to no. */
  lemma {:induction false} TransBoolValue(e: Expr, env: Env)
    requires WellTyped(env) && NegatesSymbols(e)
    ensures Value(TransBool(e), env) <= Value(e, env)
    ensures Value(TransBool(e), env) == NO <==> Value(e, env) == NO
  {
    match e
    case Sym(_) =>
    case Not(a) =>
    case Bin(op, l, r) => TransBoolValue(l, env); TransBoolValue(r, env);
    case Cmp(rel, l, r) => assert TypedAt(env, l);
  }

  /** The promotion in sym_calc_visibility for a symbol that is not tristate. */
  function Promote(v: Tristate): Tristate { if v == MOD then YES else v }

  /** The visibility that sym_calc_visibility derives from a list of prompts. */
  function PromptsValue(prompts: seq<Option<Expr>>, env: Env): Tristate {
    if prompts == [] then NO
    else TriOr(OptValue(prompts[0], env), PromptsValue(prompts[1..], env))
  }

  function OptTransBool(e: Option<Expr>): Option<Expr> {
    if e.None? then None else Some(TransBool(e.value))
  }

  /** So it never changes the visibility of a symbol that is not tristate. */
  lemma {:induction false} TransBoolVisibility(prompts: seq<Option<Expr>>, env: Env)
    requires WellTyped(env)
    requires forall i :: 0 <= i < |prompts| && prompts[i].Some? ==> NegatesSymbols(prompts[i].value)
    ensures Promote(PromptsValue(seq(|prompts|, i requires 0 <= i < |prompts| => OptTransBool(prompts[i])), env))
         == Promote(PromptsValue(prompts, env))
  {
    if prompts != [] {
      var reduced := seq(|prompts|, i requires 0 <= i < |prompts| => OptTransBool(prompts[i]));
      var rest := prompts[1..];
      assert reduced[1..] == seq(|rest|, i requires 0 <= i < |rest| => OptTransBool(rest[i]));
      TransBoolVisibility(rest, env);
      if prompts[0].Some? { TransBoolValue(prompts[0].value, env); }
    }
  }

  /** expr_contains_symbol. */
  predicate ContainsSymbol(e: Expr, s: Symbol) {
    match e
    case Bin(_, l, r) => ContainsSymbol(l, s) || ContainsSymbol(r, s)
    case Sym(x) => x == s
    case Cmp(_, l, r) => l == s || r == s
    case Not(a) => ContainsSymbol(a, s)
  }

  /** expr_depends_symbol. */
  predicate DependsSymbol(e: Expr, s: Symbol) {
    match e
    case Bin(op, l, r) => op == AndOp && (DependsSymbol(l, s) || DependsSymbol(r, s))
    case Sym(x) => x == s
    case Cmp(rel, l, r) =>
      l == s && (if rel == Equal then r == SymYes || r == SymMod else r == SymNo)
    case Not(_) => false
  }

  lemma {:induction false} ContainsIsMention(e: Expr, s: Symbol)
    ensures ContainsSymbol(e, s) <==> s in Symbols(e)
  {
    match e
    case Bin(_, l, r) => ContainsIsMention(l, s); ContainsIsMention(r, s);
    case Not(a) => ContainsIsMention(a, s);
    case _ =>
  }

  /** The symbol itself, or a test that only a value other than no passes. */
  predicate IsNeed(e: Expr, s: Symbol) {
    e == Sym(s) || e == Cmp(Equal, s, SymYes) || e == Cmp(Equal, s, SymMod) || e == Cmp(Unequal, s, SymNo)
  }

  /** It looks for such an operand in the outermost conjunction, and nowhere else. */
  lemma {:induction false} DependsIff(e: Expr, s: Symbol)
    ensures DependsSymbol(e, s) <==> exists x :: x in Operands(AndOp, e) && IsNeed(x, s)
  {
    if IsOp(AndOp, e) {
      DependsIff(e.left, s);
      DependsIff(e.right, s);
      var l, r := Operands(AndOp, e.left), Operands(AndOp, e.right);
      assert forall x :: x in Operands(AndOp, e) <==> x in l || x in r;
      if x :| x in l && IsNeed(x, s) { assert x in Operands(AndOp, e) && IsNeed(x, s); }
      if x :| x in r && IsNeed(x, s) { assert x in Operands(AndOp, e) && IsNeed(x, s); }
    } else {
      assert Operands(AndOp, e) == [e] && e in Operands(AndOp, e);
      assert DependsSymbol(e, s) <==> IsNeed(e, s);
    }
  }

  /** expr_depends_symbol finds only expressions that cannot hold without `s`. */
  ghost predicate TestIsSound(s: Symbol) {
    forall e, env :: WellTyped(env) && DependsSymbol(e, s) && env.tri(s) == NO ==> Value(e, env) == NO
  }

  lemma {:induction false} DependsNeeds(e: Expr, s: Symbol, env: Env)
    requires WellTyped(env) && (IsLogical(s) || IsYmn(s)) && DependsSymbol(e, s)
    ensures env.tri(s) == NO ==> Value(e, env) == NO
  {
    assert TypedAt(env, s);
    match e
    case Bin(op, l, r) =>
      if DependsSymbol(l, s) { DependsNeeds(l, s, env); } else { DependsNeeds(r, s, env); }
    case _ =>
  }

  /** Every symbol at its least value. */
  ghost function LeastEnv(): (env: Env)
    ensures WellTyped(env)
  {
    Env((s: Symbol) => if s.SymYes? then YES else if s.SymMod? then MOD else NO,
        (s: Symbol) => match s
          case SymYes => "y"
          case SymMod => "m"
          case SymNo => "n"
          case Quoted(t) => t
          case Config(_, _) => if IsLogical(s) then "n" else "")
  }

  /** The test is sound exactly for symbols that are not strings or numbers: with
      `S` the empty string, worth no as a tristate, `S != n` still holds. */
  lemma DependsSoundIffLogical(s: Symbol)
    ensures TestIsSound(s) <==> IsLogical(s) || IsYmn(s)
  {
    if IsLogical(s) || IsYmn(s) {
      forall e, env | WellTyped(env) && DependsSymbol(e, s) && env.tri(s) == NO
        ensures Value(e, env) == NO
      {
        DependsNeeds(e, s, env);
      }
    } else {
      var e, env := Cmp(Unequal, s, SymNo), LeastEnv();
      assert TypedAt(env, s);
      assert DependsSymbol(e, s) && env.tri(s) == NO && Value(e, env) == YES;
    }
  }
}
