/** How menu_finalize spreads dependencies: each entry's condition takes in that of
    its parent, and each property's condition that of its entry (menu.c). */
module MenuDeps {
  import opened Tristates
  import opened Exprs
  import opened Transform
  import opened DupsLaws
  import opened CutLaws
  import opened Simplifier
  import opened SymbolGraph

  ghost predicate OptRefines(a: Option<Expr>, b: Option<Expr>) {
    forall env :: WellTyped(env) ==> Decides(OptValue(a, env), OptValue(b, env))
  }

  predicate OptNegatesSymbols(e: Option<Expr>) { e.Some? ==> NegatesSymbols(e.value) }

  /** `b` is no where `a` is no, and not no where `a` is yes. */
  ghost predicate OptKeepsReach(a: Option<Expr>, b: Option<Expr>) {
    forall env :: WellTyped(env) ==>
      (OptValue(a, env) == NO ==> OptValue(b, env) == NO) && (OptValue(a, env) == YES ==> OptValue(b, env) != NO)
  }

  lemma {:induction false} TransformNegates(e: Expr)
    ensures NegatesSymbols(TransformExpr(e))
  {
    TransformIsNnf(e);
    NnfNegatesSymbols(TransformExpr(e));
  }

  /** `eliminate_dups(a && transform(b))`, either of which may be missing. */
  function Conjunction(a: Option<Expr>, b: Option<Expr>): Option<Expr> {
    var e := Alloc(AndOp, a, if b.None? then None else Some(TransformExpr(b.value)));
    if e.None? then None else Some(Simplify(e.value))
  }

  /** With nothing more to take in, a conjunction stays as it is. */
  lemma ConjunctionAlone(a: Option<Expr>, b: Option<Expr>)
    ensures Conjunction(Conjunction(a, b), None) == Conjunction(a, b)
  {
    var e := Alloc(AndOp, a, if b.None? then None else Some(TransformExpr(b.value)));
    if e.Some? { SimplifyIdempotent(e.value); }
  }

  /** It has no operands left to join or to cut. */
  lemma ConjunctionIsSimple(a: Option<Expr>, b: Option<Expr>)
    ensures var c := Conjunction(a, b); c.Some? ==> DupFree(c.value) && CutFree(c.value)
  {
    var e := Alloc(AndOp, a, if b.None? then None else Some(TransformExpr(b.value)));
    if e.Some? { SimplifyIsSimple(e.value); }
  }

  method Conjoin(a: Option<Expr>, b: Option<Expr>) returns (r: Option<Expr>)
    ensures r == Conjunction(a, b)
    ensures OptRefines(Alloc(AndOp, a, b), r)
    ensures OptNegatesSymbols(a) ==> OptNegatesSymbols(r)
  {
    var t := if b.None? then None else Some(TransformExpr(b.value));
    var e := Alloc(AndOp, a, t);
    if b.Some? { TransformNegates(b.value); }
    forall env | WellTyped(env) ensures OptValue(e, env) == OptValue(Alloc(AndOp, a, b), env) {
      if b.Some? { TransformValue(b.value, env); }
    }
    if e.None? { return None; }
    var x := EliminateDups(e.value);
    r := Some(x);
    assert Refines(e.value, x);
    forall env | WellTyped(env) ensures Decides(OptValue(Alloc(AndOp, a, b), env), OptValue(r, env)) {
      assert Decides(Value(e.value, env), Value(x, env));
    }
  }

  /** The condition of a property below an entry with the condition `dep`. */
  function PropertyCond(dep: Option<Expr>, exact: bool, v: Option<Expr>): Option<Expr> {
    var c := Conjunction(dep, v);
    if exact || c.None? then c else Some(TransBool(c.value))
  }

  /** What becomes of one property, below an entry with the condition `dep`: it holds
      when both do. For a symbol that is not tristate (`exact` is false) this goes only
      as far as its visibility, given that `dep` negates nothing but symbols. */
  ghost predicate SpreadTo(dep: Option<Expr>, exact: bool, before: Property, after: Property) {
    && after == before.(visible := PropertyCond(dep, exact, before.visible))
    && (if exact then OptRefines(Alloc(AndOp, dep, before.visible), after.visible)
        else OptNegatesSymbols(dep) ==> OptKeepsReach(Alloc(AndOp, dep, before.visible), after.visible))
    && (OptNegatesSymbols(dep) ==> OptNegatesSymbols(after.visible))
  }

  /** The part of the loop of menu_finalize for one property. */
  method SpreadProperty(dep: Option<Expr>, exact: bool, p: Property) returns (r: Property)
    ensures SpreadTo(dep, exact, p, r)
  {
    var v := Conjoin(dep, p.visible);
    r := p.(visible := v);
    if !exact && v.Some? {
      r := p.(visible := Some(TransBool(v.value)));
      if NegatesSymbols(v.value) { TransBoolNegates(v.value); }
    }
    if !exact && OptNegatesSymbols(dep) {
      forall env | WellTyped(env) ensures
        var a, b := OptValue(Alloc(AndOp, dep, p.visible), env), OptValue(r.visible, env);
        (a == NO ==> b == NO) && (a == YES ==> b != NO)
      {
        assert Decides(OptValue(Alloc(AndOp, dep, p.visible), env), OptValue(v, env));
        if v.Some? { TransBoolValue(v.value, env); }
      }
    }
  }

  lemma {:induction false} TransBoolNegates(e: Expr)
    requires NegatesSymbols(e)
    ensures NegatesSymbols(TransBool(e))
  {
    if e.Bin? {
      TransBoolNegates(e.left);
      TransBoolNegates(e.right);
    }
  }

  /** `FOO != n` becomes `FOO`: only constants can get lost. */
  lemma {:induction false} TransBoolMentions(e: Expr, s: Symbol)
    requires s in Symbols(e) && s.Config?
    ensures s in Symbols(TransBool(e))
  {
    match e
    case Bin(_, l, r) => if s in Symbols(l) { TransBoolMentions(l, s); } else { TransBoolMentions(r, s); }
    case Not(a) => TransBoolMentions(a, s);
    case _ =>
  }

  /** The condition of a property of a symbol that is not tristate tests no tristate symbol
      for not being n. */
  lemma PropertyCondTests(dep: Option<Expr>, v: Option<Expr>)
    ensures var c := PropertyCond(dep, false, v); c.Some? ==> NoPresenceTest(c.value)
  {
    var c := Conjunction(dep, v);
    if c.Some? { TransBoolIff(c.value); }
  }

  /** So a property without a condition of its own shows all that its entry depends on. */
  lemma ShowsItsEntry(parentdep: Option<Expr>, dep: Option<Expr>, exact: bool, s: Symbol)
    requires s in OptSymbols(Conjunction(parentdep, dep)) && s.Config?
    ensures s in OptSymbols(PropertyCond(Conjunction(parentdep, dep), exact, None))
  {
    ConjunctionAlone(parentdep, dep);
    if !exact { TransBoolMentions(Conjunction(parentdep, dep).value, s); }
  }
}
