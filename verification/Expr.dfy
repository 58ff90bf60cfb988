/** The three-valued logic, the symbols and the dependency expressions of the
    configuration language, and what an expression is worth in an environment. */
module Tristates {
  type Tristate = x: int | 0 <= x <= 2

  const NO: Tristate := 0
  const MOD: Tristate := 1
  const YES: Tristate := 2

  function TriOr(a: Tristate, b: Tristate): Tristate { if a > b then a else b }

  function TriAnd(a: Tristate, b: Tristate): Tristate { if a < b then a else b }

  function TriNot(a: Tristate): Tristate { 2 - a }

  function TriString(a: Tristate): string {
    if a == NO then "n" else if a == MOD then "m" else "y"
  }

  /** `mod` read as "undecided": `b` is what `a` may become once it is decided. */
  predicate Decides(a: Tristate, b: Tristate) { a == MOD || a == b }
}

module Exprs {
  import opened Tristates

  datatype Option<+T> = None | Some(value: T)

  datatype SymbolType =
    | UnknownType | BooleanType | TristateType | IntType | HexType | StringType | OtherType

  /** Looking up the names y, m and n always yields the three built-in symbols,
      so no quoted constant carries one of those names. */
  type QuotedText = t: string | t != "y" && t != "m" && t != "n" witness ""

  datatype Symbol =
    | SymYes | SymMod | SymNo
    | Quoted(text: QuotedText)
    | Config(id: nat, typ: SymbolType)

  /** The SYMBOL_CONST flag. */
  predicate IsConst(s: Symbol) { !s.Config? }

  /** The three built-in symbols. */
  predicate IsYmn(s: Symbol) { s.SymYes? || s.SymMod? || s.SymNo? }

  predicate IsBoolean(s: Symbol) { s.Config? && s.typ == BooleanType }

  predicate IsTristate(s: Symbol) { s.Config? && s.typ == TristateType }

  predicate IsLogical(s: Symbol) { IsBoolean(s) || IsTristate(s) }

  datatype Op = AndOp | OrOp

  datatype Rel = Equal | Unequal

  /** E_SYMBOL, E_NOT, E_AND/E_OR and E_EQUAL/E_UNEQUAL. */
  datatype Expr =
    | Sym(sym: Symbol)
    | Not(arg: Expr)
    | Bin(op: Op, left: Expr, right: Expr)
    | Cmp(rel: Rel, lhs: Symbol, rhs: Symbol)

  /** Values of all symbols: `curr.tri` and the result of sym_get_string_value. */
  datatype Env = Env(tri: Symbol -> Tristate, str: Symbol -> string)

  /** The values of y, m and n. */
  ghost predicate FixesYmn(env: Env) {
    && env.tri(SymYes) == YES && env.str(SymYes) == "y"
    && env.tri(SymMod) == MOD && env.str(SymMod) == "m"
    && env.tri(SymNo) == NO && env.str(SymNo) == "n"
  }

  /** What one symbol may be worth. */
  ghost predicate TypedAt(env: Env, s: Symbol) {
    && (s.Quoted? ==> env.tri(s) == NO && env.str(s) == s.text)
    && (IsBoolean(s) ==> env.tri(s) != MOD)
    && (IsLogical(s) ==> env.str(s) == TriString(env.tri(s)))
    && (s.Config? && !IsLogical(s) ==> env.tri(s) == NO)
  }

  /** The environments that sym_calc_value can produce. */
  ghost predicate WellTyped(env: Env) {
    FixesYmn(env) && forall s: Symbol :: TypedAt(env, s)
  }

  function Apply(op: Op, a: Tristate, b: Tristate): Tristate {
    match op
    case AndOp => TriAnd(a, b)
    case OrOp => TriOr(a, b)
  }

  /** Operands of one operator may be regrouped. */
  lemma Regroup(op: Op, a: Tristate, b: Tristate, c: Tristate, d: Tristate)
    ensures Apply(op, Apply(op, a, b), Apply(op, c, d)) == Apply(op, Apply(op, a, c), Apply(op, b, d))
    ensures Apply(op, Apply(op, a, b), c) == Apply(op, a, Apply(op, b, c))
    ensures Apply(op, a, b) == Apply(op, b, a)
  {}

  lemma Monotone(op: Op, a: Tristate, b: Tristate, c: Tristate)
    requires a <= b
    ensures Apply(op, a, c) <= Apply(op, b, c)
  {}

  function Dual(op: Op): Op { if op == AndOp then OrOp else AndOp }

  /** expr_calc_value, for expressions that are not NULL. */
  function Value(e: Expr, env: Env): Tristate {
    match e
    case Sym(s) => env.tri(s)
    case Not(a) => TriNot(Value(a, env))
    case Bin(op, l, r) => Apply(op, Value(l, env), Value(r, env))
    case Cmp(rel, l, r) =>
      if (env.str(l) == env.str(r)) == (rel == Equal) then YES else NO
  }

  /** expr_calc_value: a missing expression is worth yes. */
  function OptValue(e: Option<Expr>, env: Env): Tristate {
    match e
    case None => YES
    case Some(x) => Value(x, env)
  }

  /** `b` has the value of `a` wherever that value is not mod. */
  ghost predicate Refines(a: Expr, b: Expr) {
    forall env :: WellTyped(env) ==> Decides(Value(a, env), Value(b, env))
  }

  function Size(e: Expr): nat {
    match e
    case Sym(_) => 1
    case Not(a) => 1 + Size(a)
    case Bin(_, l, r) => 1 + Size(l) + Size(r)
    case Cmp(_, _, _) => 1
  }

  /** The constant that leaves the other operand as it is. */
  function Identity(op: Op): Symbol { if op == AndOp then SymYes else SymNo }

  /** The constant that decides the whole expression. */
  function Absorbing(op: Op): Symbol { if op == AndOp then SymNo else SymYes }

  /** expr_alloc_and and expr_alloc_or. */
  function Alloc(op: Op, a: Option<Expr>, b: Option<Expr>): Option<Expr> {
    if a.None? then b else if b.None? then a else Some(Bin(op, a.value, b.value))
  }

  /** Every symbol an expression mentions. */
  function Symbols(e: Expr): set<Symbol> {
    match e
    case Sym(s) => {s}
    case Not(a) => Symbols(a)
    case Bin(_, l, r) => Symbols(l) + Symbols(r)
    case Cmp(_, l, r) => {l, r}
  }

  function OptSymbols(e: Option<Expr>): set<Symbol> {
    if e.None? then {} else Symbols(e.value)
  }

  /** A value depends only on the symbols mentioned. */
  lemma {:induction false} ValueAgrees(e: Expr, env: Env, env': Env)
    requires forall s :: s in Symbols(e) ==> env.tri(s) == env'.tri(s) && env.str(s) == env'.str(s)
    ensures Value(e, env) == Value(e, env')
  {
    match e
    case Sym(s) =>
    case Not(a) => ValueAgrees(a, env, env');
    case Bin(_, l, r) => ValueAgrees(l, env, env'); ValueAgrees(r, env, env');
    case Cmp(_, l, r) => assert l in Symbols(e) && r in Symbols(e);
  }
}
