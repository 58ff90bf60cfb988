/** What menu_finalize makes of the conditions of a menu tree: every entry and every
    property takes in the condition of the entry above it (menu.c). */
module MenuConds {
  import opened Tristates
  import opened Exprs
  import opened Forests
  import opened SymbolGraph
  import opened SymbolValue
  import opened MenuDeps
  import opened MenuTree

  predicate IsExact(x: Fixed, i: nat)
    requires i < |x.sym|
  {
    x.sym[i].None? || IsTristate(x.sym[i].value)
  }

  /** What becomes of one entry below a parent with the condition `parentdep`. */
  ghost predicate Spread(x: Fixed, i: nat, parentdep: Option<Expr>, before: Conds, after: Conds) {
    && i < |x.sym| && i < |before.dep| && i < |before.props| && i < |after.dep| && i < |after.props|
    && after.dep[i] == Conjunction(parentdep, before.dep[i])
    && OptRefines(Alloc(AndOp, parentdep, before.dep[i]), after.dep[i])
    && (OptNegatesSymbols(parentdep) ==> OptNegatesSymbols(after.dep[i]))
    && |after.props[i]| == |before.props[i]|
    && forall j :: 0 <= j < |before.props[i]| ==> SpreadTo(after.dep[i], IsExact(x, i), before.props[i][j], after.props[i][j])
  }

  /** The entries in `ids` were dealt with, and no others. */
  ghost predicate SpreadOver(x: Fixed, ids: set<nat>, parentdep: Option<Expr>, a: Conds, b: Conds) {
    CondsKept(ids, a, b) && forall i :: i in ids ==> Spread(x, i, parentdep, a, b)
  }

  lemma SpreadOneMore(x: Fixed, ids: set<nat>, i: nat, parentdep: Option<Expr>, a: Conds, b: Conds, c: Conds)
    requires SpreadOver(x, ids, parentdep, a, b) && i !in ids
    requires Spread(x, i, parentdep, b, c) && CondsKept({i}, b, c)
    ensures SpreadOver(x, ids + {i}, parentdep, a, c)
  {
    forall j | j in ids + {i} ensures Spread(x, j, parentdep, a, c) {
      if j != i { assert Spread(x, j, parentdep, a, b); } else { assert Spread(x, i, parentdep, b, c); }
    }
  }

  /** `rev_dep.expr` of symbols: a symbol without one is not selected. */
  function SelectValue(revDep: map<Symbol, Expr>, s: Symbol, env: Env): Tristate {
    if s in revDep then Value(revDep[s], env) else NO
  }

  function AddSelect(revDep: map<Symbol, Expr>, s: Symbol, more: Expr): map<Symbol, Expr> {
    revDep[s := if s in revDep then Bin(OrOp, revDep[s], more) else more]
  }

  /** Selecting `s` under the condition `e` adds that to what selects it. */
  lemma SelectMore(revDep: map<Symbol, Expr>, s: Symbol, e: Expr, t: Symbol, env: Env)
    ensures SelectValue(AddSelect(revDep, s, e), t, env)
         == if t == s then TriOr(SelectValue(revDep, t, env), Value(e, env)) else SelectValue(revDep, t, env)
  {}

  /** The same for the condition `a && b`, in either order. */
  lemma AddSelectValue(revDep: map<Symbol, Expr>, s: Symbol, a: Option<Expr>, b: Expr, t: Symbol, env: Env)
    ensures var m := AddSelect(revDep, s, Alloc(AndOp, a, Some(b)).value);
      && (t != s ==> SelectValue(m, t, env) == SelectValue(revDep, t, env))
      && (t == s ==> SelectValue(m, t, env) == TriOr(SelectValue(revDep, t, env), TriAnd(OptValue(a, env), Value(b, env))))
    ensures var m := AddSelect(revDep, s, Alloc(AndOp, Some(b), a).value);
      && (t != s ==> SelectValue(m, t, env) == SelectValue(revDep, t, env))
      && (t == s ==> SelectValue(m, t, env) == TriOr(SelectValue(revDep, t, env), TriAnd(Value(b, env), OptValue(a, env))))
  {
    SelectMore(revDep, s, Alloc(AndOp, a, Some(b)).value, t, env);
    SelectMore(revDep, s, Alloc(AndOp, Some(b), a).value, t, env);
  }

  /** One property of the entry of `sym`, added to what it selects, if it does. */
  function AddSelectBy(revDep: map<Symbol, Expr>, sym: Option<Symbol>, p: Property): map<Symbol, Expr> {
    if sym.Some? && p.kind.SelectProp? && PropSymbol(p).Some? then
      AddSelect(revDep, PropSymbol(p).value, Alloc(AndOp, Some(Sym(sym.value)), p.visible).value)
    else revDep
  }

  /** The select properties `ps` of the entry of `sym`, added to what they select. */
  function AddSelects(revDep: map<Symbol, Expr>, sym: Option<Symbol>, ps: seq<Property>): (r: map<Symbol, Expr>)
    ensures sym.None? ==> r == revDep
  {
    if ps == [] then revDep else AddSelectBy(AddSelects(revDep, sym, ps[..|ps| - 1]), sym, ps[|ps| - 1])
  }

  lemma AddSelectsSnoc(revDep: map<Symbol, Expr>, sym: Option<Symbol>, ps: seq<Property>, p: Property)
    ensures AddSelects(revDep, sym, ps + [p]) == AddSelectBy(AddSelects(revDep, sym, ps), sym, p)
  {
    assert (ps + [p])[..|ps|] == ps;
  }

  /** How far the entry of `sym` selects `s`. */
  function SelectedBy(sym: Symbol, ps: seq<Property>, s: Symbol, env: Env): Tristate {
    if ps == [] then NO
    else
      var p, before := ps[|ps| - 1], SelectedBy(sym, ps[..|ps| - 1], s, env);
      if p.kind.SelectProp? && PropSymbol(p) == Some(s) then
        TriOr(before, TriAnd(env.tri(sym), OptValue(p.visible, env)))
      else before
  }

  lemma {:induction false} AddSelectsValue(revDep: map<Symbol, Expr>, sym: Symbol, ps: seq<Property>, s: Symbol, env: Env)
    ensures SelectValue(AddSelects(revDep, Some(sym), ps), s, env)
         == TriOr(SelectValue(revDep, s, env), SelectedBy(sym, ps, s, env))
  {
    if ps != [] {
      var p, before := ps[|ps| - 1], ps[..|ps| - 1];
      AddSelectsValue(revDep, sym, before, s, env);
      if p.kind.SelectProp? && PropSymbol(p).Some? {
        AddSelectValue(AddSelects(revDep, Some(sym), before), PropSymbol(p).value, p.visible, Sym(sym), s, env);
        assert Value(Sym(sym), env) == env.tri(sym);
      }
    }
  }

  /** What the children of the entry take in: a choice, or the condition of the prompt,
      or else of the entry. */
  function ParentDep(x: Fixed, c: Conds, i: nat): Option<Expr>
    requires Sized(x, c, |x.sym|) && i < |x.sym|
  {
    if x.sym[i].Some? && x.sym[i].value in x.choices then Some(Sym(x.sym[i].value)) else EntryCond(x, c, i)
  }

  /** In the tree `f`, as it was at first, everything below a root ends up with the
      final condition of the entry above it taken in. */
  ghost predicate SpreadAll(x: Fixed, f: Forest, a: Conds, b: Conds)
    requires Sized(x, b, |x.sym|)
  {
    f.Node? ==>
      && f.id < |x.sym|
      && (forall i :: i in Roots(f.kids) ==> Spread(x, i, ParentDep(x, b, f.id), a, b))
      && SpreadAll(x, f.kids, a, b) && SpreadAll(x, f.rest, a, b)
  }

  /** All below the roots of `f` is settled, and nothing else changed. */
  ghost predicate Settled(x: Fixed, f: Forest, a: Conds, b: Conds)
    requires Sized(x, b, |x.sym|)
  {
    SpreadAll(x, f, a, b) && CondsKept(Ids(f) - Roots(f), a, b)
  }

  /** Only the first conditions below the roots matter, and the final ones of the tree. */
  lemma {:induction false} SpreadAllFrame(x: Fixed, f: Forest, a: Conds, a': Conds, b: Conds, b': Conds)
    requires Sized(x, b, |x.sym|) && Sized(x, b', |x.sym|) && NoDup(f) && SpreadAll(x, f, a, b)
    requires |a'.dep| == |a.dep| && |a'.props| == |a.props|
    requires forall i :: i in Ids(f) && i !in Roots(f) && i < |a.dep| && i < |a.props| ==>
      a'.dep[i] == a.dep[i] && a'.props[i] == a.props[i]
    requires forall i :: i in Ids(f) && i < |x.sym| ==> b'.dep[i] == b.dep[i] && b'.props[i] == b.props[i]
    ensures SpreadAll(x, f, a', b')
  {
    if f.Node? {
      assert Roots(f.rest) <= Ids(f.rest) && Roots(f.kids) <= Ids(f.kids);
      SpreadAllFrame(x, f.kids, a, a', b, b');
      SpreadAllFrame(x, f.rest, a, a', b, b');
      assert ParentDep(x, b, f.id) == ParentDep(x, b', f.id);
      forall i | i in Roots(f.kids) ensures Spread(x, i, ParentDep(x, b', f.id), a', b') {
        assert Spread(x, i, ParentDep(x, b, f.id), a, b);
        assert i in Ids(f) && i !in Roots(f);
      }
    }
  }

  lemma {:induction false} SpreadAllAppend(x: Fixed, f: Forest, g: Forest, a: Conds, b: Conds)
    requires Sized(x, b, |x.sym|)
    ensures SpreadAll(x, Append(f, g), a, b) <==> SpreadAll(x, f, a, b) && SpreadAll(x, g, a, b)
    ensures Roots(Append(f, g)) == Roots(f) + Roots(g)
  {
    if f.Node? { SpreadAllAppend(x, f.rest, g, a, b); }
  }

  lemma {:induction false} AppendAssoc(f: Forest, g: Forest, h: Forest)
    ensures Append(Append(f, g), h) == Append(f, Append(g, h))
  {
    if f.Node? { AppendAssoc(f.rest, g, h); }
  }

  lemma CondsKeptTrans(f: Forest, g: Forest, a: Conds, b: Conds, c: Conds)
    requires CondsKept(Ids(f) - Roots(f), a, b) && CondsKept(Ids(g) - Roots(g), b, c) && Ids(f) !! Ids(g)
    ensures CondsKept((Ids(f) + Ids(g)) - (Roots(f) + Roots(g)), a, c)
  {
    assert (Ids(f) + Ids(g)) - (Roots(f) + Roots(g)) == (Ids(f) - Roots(f)) + (Ids(g) - Roots(g));
  }

  /** Settling two chains one after the other settles them both. */
  lemma SettledJoin(x: Fixed, f: Forest, g: Forest, a: Conds, b: Conds, c: Conds)
    requires Sized(x, b, |x.sym|) && Sized(x, c, |x.sym|) && NoDup(f) && NoDup(g) && Ids(f) !! Ids(g)
    requires Settled(x, f, a, b) && Settled(x, g, b, c)
    ensures Settled(x, Append(f, g), a, c)
  {
    SpreadAllFrame(x, f, a, a, b, c);
    SpreadAllFrame(x, g, b, a, c, c);
    SpreadAllAppend(x, f, g, a, c);
    CondsKeptTrans(f, g, a, b, c);
    AppendFacts(f, g);
  }

  /** One more stretch of a chain is settled: the entry at the head of `rem`, and the
      siblings `t` it takes below it. */
  lemma SettledStep(x: Fixed, done: Forest, rem: Forest, t: Forest, rest: Forest, a: Conds, b: Conds, c: Conds)
    requires Sized(x, b, |x.sym|) && Sized(x, c, |x.sym|) && Settled(x, done, a, b)
    requires rem.Node? && rem.rest == Append(t, rest) && NoDup(Append(done, rem))
    requires Settled(x, Node(rem.id, rem.kids, t), b, c)
    ensures var done' := Append(done, Node(rem.id, rem.kids, t));
            Settled(x, done', a, c) && Append(done', rest) == Append(done, rem)
  {
    var m := Node(rem.id, rem.kids, t);
    assert Append(m, rest) == rem;
    AppendAssoc(done, m, rest);
    AppendFacts(done, rem);
    AppendFacts(m, rest);
    SettledJoin(x, done, m, a, b, c);
  }

  /** The children of `p` took in its condition, then they were settled. */
  lemma SettledBelow(x: Fixed, p: nat, k: Forest, a: Conds, b: Conds, c: Conds)
    requires Sized(x, a, |x.sym|) && Sized(x, b, |x.sym|) && Sized(x, c, |x.sym|) && p < |x.sym|
    requires NoDup(k) && p !in Ids(k) && Settled(x, k, b, c)
    requires SpreadOver(x, Roots(k), ParentDep(x, a, p), a, b)
    ensures Settled(x, Node(p, k, Nil), a, c)
  {
    SpreadAllFrame(x, k, b, a, c, c);
    assert ParentDep(x, a, p) == ParentDep(x, c, p);
    forall i | i in Roots(k) ensures Spread(x, i, ParentDep(x, c, p), a, c) {
      assert Spread(x, i, ParentDep(x, a, p), a, b);
    }
  }

  /** An entry without children took the settled siblings `t` below it. */
  lemma SettledBeside(x: Fixed, p: nat, t: Forest, a: Conds, b: Conds)
    requires Sized(x, b, |x.sym|) && p < |x.sym| && p !in Ids(t) && Settled(x, t, a, b)
    ensures Settled(x, Node(p, Nil, t), a, b)
  {
    assert Ids(Node(p, Nil, t)) - Roots(Node(p, Nil, t)) == Ids(t) - Roots(t);
  }

  /** What is above its children is no: a choice itself; else the condition of the entry's
      prompt, or without one the entry's. */
  ghost predicate AboveIsNo(x: Fixed, p: nat, b: Conds, env: Env)
    requires Sized(x, b, |x.sym|) && p < |x.sym|
  {
    if x.sym[p].Some? && x.sym[p].value in x.choices then env.tri(x.sym[p].value) == NO
    else if x.prompt[p].Some? then OptValue(b.props[p][x.prompt[p].value].visible, env) == NO
    else OptValue(b.dep[p], env) == NO
  }

  /** Then the condition of every child ends up no. */
  lemma ChildOutOfReach(x: Fixed, p: nat, i: nat, a: Conds, b: Conds, env: Env)
    requires WellTyped(env) && Sized(x, b, |x.sym|) && p < |x.sym| && Spread(x, i, ParentDep(x, b, p), a, b)
    ensures AboveIsNo(x, p, b, env) ==> OptValue(b.dep[i], env) == NO
  {
    var above := ParentDep(x, b, p);
    assert AboveIsNo(x, p, b, env) ==> OptValue(above, env) == NO;
    assert OptValue(above, env) == NO ==> OptValue(Alloc(AndOp, above, a.dep[i]), env) == NO;
    assert Decides(OptValue(Alloc(AndOp, above, a.dep[i]), env), OptValue(b.dep[i], env));
  }

  /** The entry's condition negates nothing but symbols, and so each of its properties is
      in reach as far as the condition and the property's own were. */
  ghost predicate Reaches(x: Fixed, i: nat, a: Conds, b: Conds) {
    && i < |x.sym| && i < |a.props| && i < |b.dep| && i < |b.props| && |b.props[i]| == |a.props[i]|
    && OptNegatesSymbols(b.dep[i])
    && forall j :: 0 <= j < |a.props[i]| ==>
         OptKeepsReach(Alloc(AndOp, b.dep[i], a.props[i][j].visible), b.props[i][j].visible)
         && OptNegatesSymbols(b.props[i][j].visible)
  }

  lemma SpreadReaches(x: Fixed, i: nat, parentdep: Option<Expr>, a: Conds, b: Conds)
    requires Spread(x, i, parentdep, a, b) && OptNegatesSymbols(parentdep)
    ensures Reaches(x, i, a, b)
  {
    forall j | 0 <= j < |a.props[i]|
      ensures OptKeepsReach(Alloc(AndOp, b.dep[i], a.props[i][j].visible), b.props[i][j].visible)
      ensures OptNegatesSymbols(b.props[i][j].visible)
    {
      assert SpreadTo(b.dep[i], IsExact(x, i), a.props[i][j], b.props[i][j]);
    }
  }

  /** What is above a tree negates nothing but symbols, as nothing at all does: then this
      holds all the way down. */
  lemma {:induction false} AllReach(x: Fixed, f: Forest, a: Conds, b: Conds)
    requires Sized(x, b, |x.sym|) && SpreadAll(x, f, a, b)
    requires forall i :: i in Roots(f) && i < |x.sym| ==> OptNegatesSymbols(ParentDep(x, b, i))
    ensures forall i :: i in Ids(f) && i !in Roots(f) ==> Reaches(x, i, a, b)
  {
    if f.Node? {
      forall i | i in Roots(f.kids) ensures Reaches(x, i, a, b) && OptNegatesSymbols(ParentDep(x, b, i)) {
        SpreadReaches(x, i, ParentDep(x, b, f.id), a, b);
      }
      AllReach(x, f.kids, a, b);
      AllReach(x, f.rest, a, b);
    }
  }
}
