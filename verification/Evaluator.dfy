/** sym_calc_value as it runs: values are kept in the symbols and SYMBOL_VALID says
    which are up to date. Calls in any order leave exactly the recursive values. */
module Evaluator {
  import opened Tristates
  import opened Exprs
  import opened Transform
  import opened SymbolGraph
  import opened SymbolValue

  /** The changing fields of a symbol: `curr`, `visible`, `dir_dep.tri`,
      `rev_dep.tri` and the flags SYMBOL_VALID and SYMBOL_WRITE. */
  datatype SymState = SymState(curr: SymVal, visible: Tristate, dirDep: Tristate, revDep: Tristate, valid: bool, write: bool)

  type Store = map<Symbol, SymState>

  /** Symbols without a known type are worth their name, whatever their prompts. */
  predicate HasVisibility(s: Symbol) { s.Config? && s.typ != UnknownType && s.typ != OtherType }

  /** A value for every symbol, each following from the others. */
  ghost predicate IsSolution(k: Kconfig, vals: Vals) { forall s :: Follows(k, vals, s) }

  ghost predicate Follows(k: Kconfig, vals: Vals, s: Symbol) { vals(s) == CalcWith(k, s, vals) }

  /** What a symbol holds once it is up to date. */
  ghost predicate Settled(k: Kconfig, vals: Vals, s: Symbol, st: SymState)
    requires s in k.graph
  {
    && st.curr == vals(s)
    && (HasVisibility(s) ==>
          && st.visible == Visible(s, k.graph[s], EnvOf(vals, k.modules), k.modules)
          && st.revDep == RevDep(s, k.graph[s], EnvOf(vals, k.modules), k.modules))
  }

  ghost predicate SettledAt(k: Kconfig, vals: Vals, store: Store, r: nat, s: Symbol) {
    s in store && s in k.graph && store[s].valid && k.rank(s) < r ==> Settled(k, vals, s, store[s])
  }

  /** All symbols up to date below the rank `r` hold their values. */
  ghost predicate SettledBelow(k: Kconfig, vals: Vals, store: Store, r: nat) {
    store.Keys == k.graph.Keys && forall s :: SettledAt(k, vals, store, r, s)
  }

  /** SYMBOL_WRITE of a symbol that was just calculated. */
  ghost predicate WriteRight(k: Kconfig, vals: Vals, s: Symbol, st: SymState) {
    s in k.graph && HasVisibility(s) ==>
      (st.write <==> !k.graph[s].auto && Writes(s, k.graph[s], EnvOf(vals, k.modules), k.modules))
  }

  ghost predicate KeptAt(k: Kconfig, vals: Vals, before: Store, after: Store, r: nat, s: Symbol) {
    s in before && s in after ==>
      && (before[s].valid || k.rank(s) >= r ==> after[s] == before[s])
      && (!before[s].valid && after[s].valid ==> WriteRight(k, vals, s, after[s]))
      && (!HasVisibility(s) ==> after[s].write == before[s].write)
  }

  /** Symbols that were up to date, and those of rank `r` or above, stay as they are;
      those calculated meanwhile have the right SYMBOL_WRITE. */
  ghost predicate Kept(k: Kconfig, vals: Vals, before: Store, after: Store, r: nat) {
    before.Keys == after.Keys && forall s :: KeptAt(k, vals, before, after, r, s)
  }

  /** While `s` is calculated, lower symbols may settle and no others change. */
  ghost predicate Working(k: Kconfig, vals: Vals, s: Symbol, start: Store, store: Store) {
    && SettledBelow(k, vals, store, k.rank(s))
    && start.Keys == store.Keys
    && forall t :: t != s ==> KeptAt(k, vals, start, store, k.rank(s), t)
  }

  lemma KeptTrans(k: Kconfig, vals: Vals, a: Store, b: Store, c: Store, r: nat)
    requires Kept(k, vals, a, b, r) && Kept(k, vals, b, c, r)
    ensures Kept(k, vals, a, c, r)
  {
    forall s ensures KeptAt(k, vals, a, c, r, s) {
      assert KeptAt(k, vals, a, b, r, s) && KeptAt(k, vals, b, c, r, s);
    }
  }

  /** Writing a field of the symbol that is being calculated, */
  lemma WriteField(k: Kconfig, vals: Vals, s: Symbol, start: Store, store: Store, st: SymState)
    requires s in store && Working(k, vals, s, start, store)
    ensures Working(k, vals, s, start, store[s := st])
  {
    var q, after := k.rank(s), store[s := st];
    forall t ensures SettledAt(k, vals, after, q, t) { assert SettledAt(k, vals, store, q, t); }
    forall t | t != s ensures KeptAt(k, vals, start, after, q, t) { assert KeptAt(k, vals, start, store, q, t); }
  }

  /** calculating others meanwhile, */
  lemma KeptMeanwhile(k: Kconfig, vals: Vals, s: Symbol, a: Store, b: Store, c: Store)
    requires s in b && Working(k, vals, s, a, b) && SettledBelow(k, vals, c, k.rank(s)) && Kept(k, vals, b, c, k.rank(s))
    ensures Working(k, vals, s, a, c) && c[s] == b[s]
  {
    var q := k.rank(s);
    assert KeptAt(k, vals, b, c, q, s);
    forall t | t != s ensures KeptAt(k, vals, a, c, q, t) { assert KeptAt(k, vals, a, b, q, t) && KeptAt(k, vals, b, c, q, t); }
  }

  lemma Start(k: Kconfig, vals: Vals, s: Symbol, store: Store, r: nat)
    requires SettledBelow(k, vals, store, r) && k.rank(s) < r
    ensures Working(k, vals, s, store, store)
  {
    forall t ensures SettledAt(k, vals, store, k.rank(s), t) { assert SettledAt(k, vals, store, r, t); }
  }

  /** and ending with its value in place. */
  lemma Finish(k: Kconfig, vals: Vals, s: Symbol, before: Store, after: Store, r: nat)
    requires SettledBelow(k, vals, before, r) && s in before && !before[s].valid && k.rank(s) < r
    requires Working(k, vals, s, before, after) && Settled(k, vals, s, after[s]) && WriteRight(k, vals, s, after[s])
    requires !HasVisibility(s) ==> after[s].write == before[s].write
    ensures SettledBelow(k, vals, after, r) && Kept(k, vals, before, after, r)
  {
    var q := k.rank(s);
    forall t ensures SettledAt(k, vals, after, r, t) && KeptAt(k, vals, before, after, r, t) {
      assert SettledAt(k, vals, before, r, t) && SettledAt(k, vals, after, q, t);
      if t != s { assert KeptAt(k, vals, before, after, q, t); }
    }
  }

  /** The value read from a symbol: `curr`, or what a constant always holds. */
  function Current(store: Store, s: Symbol): SymVal {
    if s in store then store[s].curr else FixedVal(s)
  }

  class SymbolTable {
    const graph: Graph
    const modules: Tristate
    /** `def[S_DEF_USER]` where SYMBOL_DEF_USER is set. */
    var user: map<Symbol, SymVal>
    var store: Store
    /** conf_get_changed: a change since the last write. */
    var changed: bool

    /** The table after parsing: nothing is set, nothing calculated. */
    constructor (graph: Graph, modules: Tristate)
      ensures this.graph == graph && this.modules == modules && user == map[] && changed
      ensures forall k :: Ranked(k) && k.graph == graph && k.modules == modules && k.user == map[] ==> Fits(k)
    {
      this.graph, this.modules, user, changed := graph, modules, map[], true;
      store := map s | s in graph :: SymState(NO_VALUE, NO, NO, NO, false, false);
    }

    /** The table is right, and SYMBOL_WRITE too as long as a change is not written. */
    ghost predicate Fits(k: Kconfig)
      reads this
    {
      Holds(k) && FlagsFit(k, store, changed)
    }

    /** `k` is what this table declares and holds as settings; `vals` solves it. */
    ghost predicate Is(k: Kconfig, vals: Vals)
      reads this
    {
      && k.graph == graph && k.modules == modules && k.user == user
      && Ranked(k) && IsSolution(k, vals)
    }

    /** expr_calc_value, of an expression whose symbols are of rank below `r`. */
    method CalcExpr(e: Expr, ghost k: Kconfig, ghost vals: Vals, ghost r: nat) returns (v: Tristate)
      requires Is(k, vals) && SettledBelow(k, vals, store, r) && Under(k, Symbols(e), r)
      modifies this`store
      ensures SettledBelow(k, vals, store, r) && Kept(k, vals, old(store), store, r)
      ensures v == Value(e, EnvOf(vals, modules))
      decreases r, 0, 0, e
    {
      match e {
        case Sym(s) =>
          CalcValue(s, k, vals, r);
          v := Current(store, s).tri;
        case Not(a) =>
          var x := CalcExpr(a, k, vals, r);
          v := TriNot(x);
        case Bin(op, a, b) =>
          var x := CalcExpr(a, k, vals, r);
          ghost var middle := store;
          var y := CalcExpr(b, k, vals, r);
          KeptTrans(k, vals, old(store), middle, store, r);
          v := Apply(op, x, y);
        case Cmp(rel, a, b) =>
          CalcValue(a, k, vals, r);
          ghost var middle := store;
          CalcValue(b, k, vals, r);
          KeptTrans(k, vals, old(store), middle, store, r);
          assert KeptAt(k, vals, middle, store, r, a);
          var x, y := StringValue(a, Current(store, a), modules), StringValue(b, Current(store, b), modules);
          v := if (x == y) == (rel == Equal) then YES else NO;
      }
    }

    /** A missing expression is worth yes. */
    method CalcOpt(e: Option<Expr>, ghost k: Kconfig, ghost vals: Vals, ghost r: nat) returns (v: Tristate)
      requires Is(k, vals) && SettledBelow(k, vals, store, r) && Under(k, OptSymbols(e), r)
      modifies this`store
      ensures SettledBelow(k, vals, store, r) && Kept(k, vals, old(store), store, r)
      ensures v == OptValue(e, EnvOf(vals, modules))
      decreases r, 0, 1
    {
      v := YES;
      if e.Some? { v := CalcExpr(e.value, k, vals, r); }
    }

    /** The loop of sym_calc_visibility over the prompts. */
    method CalcPrompts(props: seq<Property>, ghost k: Kconfig, ghost vals: Vals, ghost r: nat) returns (tri: Tristate)
      requires Is(k, vals) && SettledBelow(k, vals, store, r) && Under(k, OptsSymbols(Prompts(props)), r)
      modifies this`store
      ensures SettledBelow(k, vals, store, r) && Kept(k, vals, old(store), store, r)
      ensures tri == PromptsValue(Prompts(props), EnvOf(vals, modules))
      decreases r, 0, 2
    {
      tri := NO;
      var i := 0;
      while i < |props|
        invariant i <= |props|
        invariant SettledBelow(k, vals, store, r) && Kept(k, vals, old(store), store, r)
        invariant Under(k, OptsSymbols(Prompts(props[i..])), r)
        invariant TriOr(tri, PromptsValue(Prompts(props[i..]), EnvOf(vals, modules)))
               == PromptsValue(Prompts(props), EnvOf(vals, modules))
      {
        PromptsStep(props, i, EnvOf(vals, modules));
        if props[i].hasText {
          ghost var middle := store;
          var v := CalcOpt(props[i].visible, k, vals, r);
          KeptTrans(k, vals, old(store), middle, store, r);
          tri := TriOr(tri, v);
        }
        i := i + 1;
      }
    }

    /** The first part of sym_calc_visibility: any prompt visible? */
    method CalcVisible(s: Symbol, ghost k: Kconfig, ghost vals: Vals, ghost start: Store)
      requires Is(k, vals) && s in graph && Under(k, EvalDeps(graph[s]), k.rank(s))
      requires Working(k, vals, s, start, store)
      modifies this`store
      ensures Working(k, vals, s, start, store)
      ensures store[s] == old(store)[s].(visible := Visible(s, graph[s], EnvOf(vals, modules), modules))
      decreases k.rank(s), 0, 3
    {
      var tri := CalcPrompts(graph[s].props, k, vals, k.rank(s));
      KeptMeanwhile(k, vals, s, start, old(store), store);
      if tri == MOD && (!IsTristate(s) || modules == NO) { tri := YES; }
      SetField(s, store[s].(visible := tri), k, vals, start);
    }

    /** The second part: the dependencies, yes if there are none. */
    method CalcDirDep(s: Symbol, ghost k: Kconfig, ghost vals: Vals, ghost start: Store)
      requires Is(k, vals) && s in graph && Under(k, EvalDeps(graph[s]), k.rank(s))
      requires Working(k, vals, s, start, store)
      modifies this`store
      ensures Working(k, vals, s, start, store)
      ensures store[s] == old(store)[s].(dirDep := DirDep(graph[s], EnvOf(vals, modules)))
      decreases k.rank(s), 0, 3
    {
      var tri := CalcOpt(graph[s].dirDep, k, vals, k.rank(s));
      KeptMeanwhile(k, vals, s, start, old(store), store);
      if tri == MOD { tri := YES; }
      SetField(s, store[s].(dirDep := tri), k, vals, start);
    }

    /** The third part: what the symbols that select this one demand. */
    method CalcRevDep(s: Symbol, ghost k: Kconfig, ghost vals: Vals, ghost start: Store)
      requires Is(k, vals) && HasVisibility(s) && s in graph && Under(k, EvalDeps(graph[s]), k.rank(s))
      requires Working(k, vals, s, start, store)
      modifies this`store
      ensures Working(k, vals, s, start, store)
      ensures store[s] == old(store)[s].(revDep := RevDep(s, graph[s], EnvOf(vals, modules), modules))
      decreases k.rank(s), 0, 3
    {
      var tri := NO;
      if graph[s].revDep.Some? { tri := CalcExpr(graph[s].revDep.value, k, vals, k.rank(s)); }
      KeptMeanwhile(k, vals, s, start, old(store), store);
      if tri == MOD && TypeNow(s, modules) == BooleanType { tri := YES; }
      SetField(s, store[s].(revDep := tri), k, vals, start);
    }

    /** sym_calc_visibility, for a symbol that is being calculated. */
    method CalcVisibility(s: Symbol, ghost k: Kconfig, ghost vals: Vals, ghost start: Store)
      requires Is(k, vals) && HasVisibility(s) && s in graph && Under(k, EvalDeps(graph[s]), k.rank(s))
      requires Working(k, vals, s, start, store)
      modifies this`store
      ensures Working(k, vals, s, start, store)
      ensures store[s] == old(store)[s].(
                visible := Visible(s, graph[s], EnvOf(vals, modules), modules),
                dirDep := DirDep(graph[s], EnvOf(vals, modules)),
                revDep := RevDep(s, graph[s], EnvOf(vals, modules), modules))
      decreases k.rank(s), 0, 4
    {
      CalcVisible(s, k, vals, start);
      CalcDirDep(s, k, vals, start);
      CalcRevDep(s, k, vals, start);
    }

    /** Assigning to fields of the symbol that is being calculated. */
    method SetField(s: Symbol, st: SymState, ghost k: Kconfig, ghost vals: Vals, ghost start: Store)
      requires s in store && Working(k, vals, s, start, store)
      modifies this`store
      ensures store == old(store)[s := st]
      ensures Working(k, vals, s, start, store)
    {
      WriteField(k, vals, s, start, store, st);
      store := store[s := st];
    }

    /** sym_get_default_prop, with the value of the condition it found true. */
    method GetDefaultProp(props: seq<Property>, ghost k: Kconfig, ghost vals: Vals, ghost r: nat)
      returns (p: Option<Property>, cond: Tristate)
      requires Is(k, vals) && SettledBelow(k, vals, store, r) && Under(k, DefaultsSymbols(props), r)
      modifies this`store
      ensures SettledBelow(k, vals, store, r) && Kept(k, vals, old(store), store, r)
      ensures p == DefaultOf(props, EnvOf(vals, modules))
      ensures p.Some? ==> cond == OptValue(p.value.visible, EnvOf(vals, modules)) && Under(k, OptSymbols(p.value.expr), r)
      decreases r, 0, 2
    {
      var i := 0;
      while i < |props|
        invariant i <= |props|
        invariant SettledBelow(k, vals, store, r) && Kept(k, vals, old(store), store, r)
        invariant Under(k, DefaultsSymbols(props[i..]), r)
        invariant DefaultOf(props[i..], EnvOf(vals, modules)) == DefaultOf(props, EnvOf(vals, modules))
      {
        assert props[i..][1..] == props[i + 1..];
        if props[i].kind.DefaultProp? {
          ghost var middle := store;
          cond := CalcOpt(props[i].visible, k, vals, r);
          KeptTrans(k, vals, old(store), middle, store, r);
          if cond != NO { return Some(props[i]), cond; }
        }
        i := i + 1;
      }
      p, cond := None, NO;
    }

    /** The cases S_BOOLEAN and S_TRISTATE of sym_calc_value: value and SYMBOL_WRITE. */
    method CalcLogical(s: Symbol, ghost k: Kconfig, ghost vals: Vals) returns (tri: Tristate, write: bool)
      requires Is(k, vals) && IsLogical(s) && s in graph && Under(k, EvalDeps(graph[s]), k.rank(s))
      requires SettledBelow(k, vals, store, k.rank(s))
      requires store[s].visible == Visible(s, graph[s], EnvOf(vals, modules), modules)
      requires store[s].revDep == RevDep(s, graph[s], EnvOf(vals, modules), modules)
      modifies this`store
      ensures SettledBelow(k, vals, store, k.rank(s)) && Kept(k, vals, old(store), store, k.rank(s))
      ensures tri == LogicalValue(s, graph[s], UserOf(user, s), EnvOf(vals, modules), modules)
      ensures write <==> Writes(s, graph[s], EnvOf(vals, modules), modules)
      decreases k.rank(s), 0, 3
    {
      tri, write := NO, false;
      var visible, rev := store[s].visible, store[s].revDep;
      if visible != NO { write := true; }
      if visible != NO && s in user {
        tri := TriAnd(user[s].tri, visible);
      } else {
        if rev != NO { write := true; }
        var p, cond := GetDefaultProp(graph[s].props, k, vals, k.rank(s));
        if p.Some? {
          write := true;
          ghost var middle := store;
          var v := CalcOpt(p.value.expr, k, vals, k.rank(s));
          KeptTrans(k, vals, old(store), middle, store, k.rank(s));
          tri := TriAnd(v, cond);
        }
      }
      tri := TriOr(tri, rev);
      if tri == MOD && TypeNow(s, modules) == BooleanType { tri := YES; }
    }

    /** The cases S_STRING, S_HEX and S_INT of sym_calc_value. */
    method CalcText(s: Symbol, ghost k: Kconfig, ghost vals: Vals) returns (val: string, write: bool)
      requires Is(k, vals) && s in graph && s.Config? && !IsLogical(s) && Under(k, EvalDeps(graph[s]), k.rank(s))
      requires SettledBelow(k, vals, store, k.rank(s))
      requires store[s].visible == Visible(s, graph[s], EnvOf(vals, modules), modules)
      modifies this`store
      ensures SettledBelow(k, vals, store, k.rank(s)) && Kept(k, vals, old(store), store, k.rank(s))
      ensures val == TextValue(s, graph[s], UserOf(user, s), vals, modules)
      ensures write <==> Writes(s, graph[s], EnvOf(vals, modules), modules)
      decreases k.rank(s), 0, 3
    {
      val, write := "", false;
      if store[s].visible != NO { write := true; }
      if store[s].visible != NO && s in user {
        val := user[s].val;
      } else {
        var p, _ := GetDefaultProp(graph[s].props, k, vals, k.rank(s));
        if p.Some? && PropSymbol(p.value).Some? {
          write := true;
          var ds := PropSymbol(p.value).value;
          ghost var middle := store;
          CalcValue(ds, k, vals, k.rank(s));
          KeptTrans(k, vals, old(store), middle, store, k.rank(s));
          val := Current(store, ds).val;
        }
      }
    }

    /** sym_calc_value. */
    method CalcValue(s: Symbol, ghost k: Kconfig, ghost vals: Vals, ghost r: nat)
      requires Is(k, vals) && SettledBelow(k, vals, store, r) && k.rank(s) < r
      modifies this`store
      ensures SettledBelow(k, vals, store, r) && Kept(k, vals, old(store), store, r)
      ensures s in store ==> store[s].valid
      ensures Current(store, s) == vals(s)
      decreases k.rank(s), 1
    {
      assert Follows(k, vals, s) && RankedAt(k, s) && SettledAt(k, vals, store, r, s);
      if s !in graph || store[s].valid { return; }
      ghost var start := store;
      Start(k, vals, s, store, r);
      SetField(s, store[s].(valid := true), k, vals, start);
      if !HasVisibility(s) {
        SetField(s, store[s].(curr := SymVal(graph[s].name, NO)), k, vals, start);
      } else {
        SetField(s, store[s].(write := false), k, vals, start);
        CalcTyped(s, k, vals, start);
      }
      Finish(k, vals, s, start, store, r);
    }

    /** The rest of sym_calc_value for a symbol with a type. */
    method CalcTyped(s: Symbol, ghost k: Kconfig, ghost vals: Vals, ghost start: Store)
      requires Is(k, vals) && HasVisibility(s) && s in graph && Under(k, EvalDeps(graph[s]), k.rank(s))
      requires Working(k, vals, s, start, store)
      modifies this`store
      ensures Working(k, vals, s, start, store)
      ensures Settled(k, vals, s, store[s]) && store[s].valid == old(store)[s].valid
      ensures store[s].write <==> !graph[s].auto && Writes(s, graph[s], EnvOf(vals, modules), modules)
      decreases k.rank(s), 0, 5
    {
      assert Follows(k, vals, s);
      CalcVisibility(s, k, vals, start);
      SetField(s, store[s].(curr := if IsLogical(s) then NO_VALUE else EMPTY_VALUE), k, vals, start);
      var newval, write := CalcNewval(s, k, vals, start);
      SetField(s, store[s].(curr := newval, write := write && !graph[s].auto), k, vals, start);
    }

    /** The switch of sym_calc_value over the type. */
    method CalcNewval(s: Symbol, ghost k: Kconfig, ghost vals: Vals, ghost start: Store) returns (newval: SymVal, write: bool)
      requires Is(k, vals) && HasVisibility(s) && s in graph && Under(k, EvalDeps(graph[s]), k.rank(s))
      requires Working(k, vals, s, start, store)
      requires store[s].visible == Visible(s, graph[s], EnvOf(vals, modules), modules)
      requires store[s].revDep == RevDep(s, graph[s], EnvOf(vals, modules), modules)
      modifies this`store
      ensures Working(k, vals, s, start, store)
      ensures newval == CalcDecl(s, graph[s], UserOf(user, s), vals, modules) && store[s] == old(store)[s]
      ensures write <==> Writes(s, graph[s], EnvOf(vals, modules), modules)
      decreases k.rank(s), 0, 4
    {
      if IsLogical(s) {
        var tri;
        tri, write := CalcLogical(s, k, vals);
        newval := NO_VALUE.(tri := tri);
      } else {
        var val;
        val, write := CalcText(s, k, vals);
        newval := EMPTY_VALUE.(val := val);
      }
      KeptMeanwhile(k, vals, s, start, old(store), store);
    }

    /** sym_clear_all_valid. */
    method ClearAllValid()
      modifies this`store, this`changed
      ensures store.Keys == old(store).Keys && changed
      ensures forall s :: s in store ==> store[s] == old(store)[s].(valid := false)
    {
      changed := true;
      store := map s | s in store :: store[s].(valid := false);
    }

    /** `sym->flags &= ~SYMBOL_WRITE`. */
    method ClearWrite(s: Symbol, ghost k: Kconfig)
      requires Holds(k) && s in store
      modifies this`store
      ensures Holds(k) && store == old(store)[s := old(store)[s].(write := false)]
    {
      ghost var before := store;
      store := store[s := store[s].(write := false)];
      forall t ensures UpToDate(k, store, t) { assert UpToDate(k, before, t); }
    }

    /** A call of sym_calc_value from outside: the symbol gets its recursive value,
        and no symbol that was up to date changes. */
    method Evaluate(s: Symbol, ghost k: Kconfig)
      requires Holds(k)
      modifies this`store
      ensures Holds(k) && IsDone(k, store, s) && Advanced(k, old(store), store)
      ensures old(Fits(k)) ==> Fits(k)
    {
      ghost var vals, r := AllVals(k), k.rank(s) + 1;
      Entering(k, store, r);
      CalcValue(s, k, vals, r);
      Leaving(k, old(store), store, r);
      if old(Fits(k)) { FlagsAdvanced(k, old(store), store, changed); }
    }

    /** A call of expr_calc_value from outside. */
    method EvaluateOpt(e: Option<Expr>, ghost k: Kconfig) returns (v: Tristate)
      requires Holds(k)
      modifies this`store
      ensures Holds(k) && v == OptValue(e, AllEnv(k)) && Advanced(k, old(store), store)
      ensures old(Fits(k)) ==> Fits(k)
    {
      ghost var r := if e.Some? then Bound(k, e.value) else 0;
      if e.Some? { BoundIsUnder(k, e.value); }
      Entering(k, store, r);
      v := CalcOpt(e, k, AllVals(k), r);
      Leaving(k, old(store), store, r);
      if old(Fits(k)) { FlagsAdvanced(k, old(store), store, changed); }
    }

    /** Whatever the order of the calls, each symbol ends with its recursive value. */
    method EvaluateAll(order: seq<Symbol>, ghost k: Kconfig)
      requires Holds(k)
      modifies this`store
      ensures Holds(k) && forall i :: 0 <= i < |order| ==> IsDone(k, store, order[i])
      ensures Advanced(k, old(store), store)
      ensures old(Fits(k)) ==> Fits(k)
    {
      var i := 0;
      while i < |order|
        invariant i <= |order| && Holds(k) && Advanced(k, old(store), store)
        invariant old(Fits(k)) ==> Fits(k)
        invariant forall j :: 0 <= j < i ==> IsDone(k, store, order[j])
      {
        ghost var before := store;
        Evaluate(order[i], k);
        AdvancedTrans(k, old(store), before, store);
        forall j | 0 <= j < i ensures IsDone(k, store, order[j]) {
          assert IsDone(k, before, order[j]) && AdvancedAt(k, before, store, order[j]);
        }
        i := i + 1;
      }
    }

    /** The table stands for `k`, and every symbol up to date holds its value. */
    ghost predicate Holds(k: Kconfig)
      reads this
    {
      && Ranked(k) && k.graph == graph && k.modules == modules && k.user == user
      && store.Keys == k.graph.Keys && AllUpToDate(k, store)
    }

    /** sym_set_tristate_value. */
    method SetTristateValue(s: Symbol, val: Tristate, ghost k: Kconfig) returns (ok: bool)
      requires Holds(k) && s in store && store[s].valid && IsLogical(s)
      modifies this`store, this`user, this`changed
      ensures ok <==> Calc(k, s).tri == val || WithinRange(s, old(store)[s], val, modules)
      ensures ok <==> Calc(k, s).tri == val || (CanChange(k, s) && WouldBe(k, s, NewSetting(old(user), s, val)))
      ensures !ok ==> user == old(user) && store == old(store)
      ensures ok ==> user == old(user)[s := NewSetting(old(user), s, val)]
      ensures ok && Calc(k, s).tri != val ==> Holds(k.(user := user)) && Calc(k.(user := user), s).tri == val
      ensures ok && Calc(k, s).tri == val ==> (Holds(k.(user := user)) <==> TakesEffect(k, s, val))
      ensures ok && old(Fits(k)) && Holds(k.(user := user)) ==> Fits(k.(user := user))
    {
      assert UpToDate(k, store, s);
      var oldval := store[s].curr.tri;
      WithinRangeIff(k, s, store[s], NewSetting(user, s, val));
      if oldval != val && !WithinRange(s, store[s], val, modules) { return false; }
      ghost var v := NewSetting(user, s, val);
      StillRanked(k, s, v);
      user := user[s := NewSetting(user, s, val)];
      if oldval != val {
        SettingTakesEffect(k, s, v);
        ghost var before := store;
        ClearAllValid();
        if old(Fits(k)) { FlagsCleared(k, k.(user := user), before, old(changed), store); }
      } else {
        CacheSurvivesIff(k, s, v, store);
        if TakesEffect(k, s, val) && old(Fits(k)) { FlagsUnfelt(k, s, v, store, changed); }
      }
      ok := true;
    }
  }

  /** The setting that sym_set_tristate_value stores: only the tristate part changes. */
  function NewSetting(user: map<Symbol, SymVal>, s: Symbol, val: Tristate): SymVal {
    if s in user then user[s].(tri := val) else SymVal("", val)
  }

  /** A symbol that was up to date did not change. Of one that became so, SYMBOL_WRITE
      is right; without a type, the flag is left alone. */
  ghost predicate AdvancedAt(k: Kconfig, before: Store, after: Store, s: Symbol)
    requires Ranked(k)
  {
    s in before && s in after ==>
      && (before[s].valid ==> after[s] == before[s])
      && (!before[s].valid && after[s].valid ==> WriteRight(k, AllVals(k), s, after[s]))
      && (!HasVisibility(s) ==> after[s].write == before[s].write)
  }

  ghost predicate Advanced(k: Kconfig, before: Store, after: Store)
    requires Ranked(k)
  {
    before.Keys == after.Keys && forall s :: AdvancedAt(k, before, after, s)
  }

  lemma AdvancedTrans(k: Kconfig, a: Store, b: Store, c: Store)
    requires Ranked(k) && Advanced(k, a, b) && Advanced(k, b, c)
    ensures Advanced(k, a, c)
  {
    forall s ensures AdvancedAt(k, a, c, s) {
      assert AdvancedAt(k, a, b, s) && AdvancedAt(k, b, c, s);
    }
  }

  lemma Entering(k: Kconfig, store: Store, r: nat)
    requires Ranked(k) && store.Keys == k.graph.Keys && AllUpToDate(k, store)
    ensures SettledBelow(k, AllVals(k), store, r) && IsSolution(k, AllVals(k))
  {
    AllValsSolve(k);
    forall t ensures SettledAt(k, AllVals(k), store, r, t) { assert UpToDate(k, store, t); }
  }

  lemma Leaving(k: Kconfig, before: Store, after: Store, r: nat)
    requires Ranked(k) && before.Keys == k.graph.Keys && AllUpToDate(k, before)
    requires SettledBelow(k, AllVals(k), after, r) && Kept(k, AllVals(k), before, after, r)
    ensures AllUpToDate(k, after) && Advanced(k, before, after)
  {
    forall t ensures UpToDate(k, after, t) && AdvancedAt(k, before, after, t) {
      assert UpToDate(k, before, t) && KeptAt(k, AllVals(k), before, after, r, t) && SettledAt(k, AllVals(k), after, r, t);
    }
  }

  /** A rank above all symbols of the expression. */
  function Bound(k: Kconfig, e: Expr): nat {
    match e
    case Sym(s) => k.rank(s) + 1
    case Not(a) => Bound(k, a)
    case Bin(_, a, b) => Bound(k, a) + Bound(k, b)
    case Cmp(_, a, b) => k.rank(a) + k.rank(b) + 1
  }

  lemma {:induction false} BoundIsUnder(k: Kconfig, e: Expr)
    ensures Under(k, Symbols(e), Bound(k, e))
  {
    match e
    case Sym(s) =>
    case Not(a) => BoundIsUnder(k, a);
    case Bin(_, a, b) => BoundIsUnder(k, a); BoundIsUnder(k, b);
    case Cmp(_, a, b) =>
  }

  /** sym_tristate_within_range. */
  predicate WithinRange(s: Symbol, st: SymState, val: Tristate, modules: Tristate)
    requires s.Config?
  {
    var typ := TypeNow(s, modules);
    && st.visible != NO
    && (typ == BooleanType || typ == TristateType)
    && !(typ == BooleanType && val == MOD)
    && st.visible > st.revDep
    && val >= st.revDep && val <= st.visible
  }

  ghost predicate UpToDate(k: Kconfig, store: Store, s: Symbol)
    requires Ranked(k)
  {
    s in store && s in k.graph && store[s].valid ==> Settled(k, AllVals(k), s, store[s])
  }

  ghost predicate AllUpToDate(k: Kconfig, store: Store)
    requires Ranked(k)
  {
    forall s :: UpToDate(k, store, s)
  }

  /** The recursive values solve the equations that the evaluator follows. */
  lemma AllValsSolve(k: Kconfig)
    requires Ranked(k)
    ensures Ranked(k) && IsSolution(k, AllVals(k))
  {
    forall s ensures Follows(k, AllVals(k), s) { CalcIsFixpoint(k, s); }
  }

  /** The symbol is up to date and holds its recursive value. */
  ghost predicate IsDone(k: Kconfig, store: Store, s: Symbol)
    requires Ranked(k)
  {
    Current(store, s) == Calc(k, s) && (s in store ==> store[s].valid)
  }

  /** A setting equal to the value leaves the cache right exactly when it takes effect. */
  lemma CacheSurvivesIff(k: Kconfig, s: Symbol, v: SymVal, store: Store)
    requires Ranked(k) && Ranked(k.(user := k.user[s := v]))
    requires s in k.graph && IsLogical(s) && s in store && store[s].valid && Calc(k, s).tri == v.tri
    requires AllUpToDate(k, store)
    ensures AllUpToDate(k.(user := k.user[s := v]), store) <==> TakesEffect(k, s, v.tri)
  {
    var k' := k.(user := k.user[s := v]);
    SettingTakesEffect(k, s, v);
    assert UpToDate(k, store, s);
    if TakesEffect(k, s, v.tri) {
      SettingUnfelt(k, s, v);
      forall t ensures UpToDate(k', store, t) {
        assert UpToDate(k, store, t);
        StateUnfelt(k, s, v, t);
      }
    } else {
      assert !UpToDate(k', store, s);
    }
  }

  /** Whether a calculated symbol has SYMBOL_WRITE set. */
  ghost predicate IsWritten(k: Kconfig, s: Symbol)
    requires Ranked(k)
  {
    s in k.graph && HasVisibility(s) && !k.graph[s].auto && Writes(s, k.graph[s], AllEnv(k), k.modules)
  }

  ghost predicate FlagFits(k: Kconfig, store: Store, changed: bool, s: Symbol)
    requires Ranked(k)
  {
    s in store ==>
      && (!HasVisibility(s) ==> !store[s].write)
      && (changed && store[s].valid ==> (store[s].write <==> IsWritten(k, s)))
  }

  /** SYMBOL_WRITE is right on every calculated symbol, unless all is written. */
  ghost predicate FlagsFit(k: Kconfig, store: Store, changed: bool)
    requires Ranked(k)
  {
    forall s :: FlagFits(k, store, changed, s)
  }

  /** Calculating more keeps it so. */
  lemma FlagsAdvanced(k: Kconfig, a: Store, b: Store, changed: bool)
    requires Ranked(k) && a.Keys == k.graph.Keys && FlagsFit(k, a, changed) && Advanced(k, a, b)
    ensures FlagsFit(k, b, changed)
  {
    forall s ensures FlagFits(k, b, changed, s) { assert FlagFits(k, a, changed, s) && AdvancedAt(k, a, b, s); }
  }

  lemma FlagsCleared(k: Kconfig, k': Kconfig, a: Store, changed: bool, b: Store)
    requires Ranked(k) && Ranked(k') && FlagsFit(k, a, changed) && b.Keys == a.Keys
    requires forall s :: s in b ==> b[s] == a[s].(valid := false)
    ensures FlagsFit(k', b, true)
  {
    forall s ensures FlagFits(k', b, true, s) { assert FlagFits(k, a, changed, s); }
  }

  /** A setting that changes no value changes no flag. */
  lemma FlagsUnfelt(k: Kconfig, s: Symbol, v: SymVal, store: Store, changed: bool)
    requires Ranked(k) && Ranked(k.(user := k.user[s := v])) && s in k.graph && IsLogical(s)
    requires Calc(k, s).tri == v.tri && TakesEffect(k, s, v.tri) && FlagsFit(k, store, changed)
    ensures FlagsFit(k.(user := k.user[s := v]), store, changed)
  {
    var k' := k.(user := k.user[s := v]);
    SettingTakesEffect(k, s, v);
    SettingUnfelt(k, s, v);
    forall t ensures FlagFits(k', store, changed, t) {
      assert FlagFits(k, store, changed, t);
      if t in k.graph && HasVisibility(t) {
        assert AgreeOn(EvalDeps(k.graph[t]), AllVals(k), AllVals(k'));
        PartsAgree(t, k.graph[t], AllVals(k), AllVals(k'), k.modules);
        DefaultsAgree(k.graph[t].props, AllVals(k), AllVals(k'), k.modules);
      }
    }
  }

  /** The user has a say: the symbol is visible beyond what selects it. */
  ghost predicate CanChange(k: Kconfig, s: Symbol)
    requires Ranked(k) && s in k.graph && IsLogical(s)
  {
    Visible(s, k.graph[s], AllEnv(k), k.modules) > RevDep(s, k.graph[s], AllEnv(k), k.modules)
  }

  /** The setting `v` would become the value. */
  ghost predicate WouldBe(k: Kconfig, s: Symbol, v: SymVal)
    requires Ranked(k)
  {
    StillRanked(k, s, v);
    Calc(k.(user := k.user[s := v]), s).tri == v.tri
  }

  /** In range is exactly what the user can change and what would then be the value. */
  lemma WithinRangeIff(k: Kconfig, s: Symbol, st: SymState, v: SymVal)
    requires Ranked(k) && s in k.graph && IsLogical(s) && Settled(k, AllVals(k), s, st)
    ensures WithinRange(s, st, v.tri, k.modules) <==> CanChange(k, s) && WouldBe(k, s, v)
    ensures WithinRange(s, st, v.tri, k.modules) ==> TakesEffect(k, s, v.tri)
  {
    StillRanked(k, s, v);
    SettingTakesEffect(k, s, v);
  }

  /** The rank does not depend on the settings. */
  lemma StillRanked(k: Kconfig, s: Symbol, v: SymVal)
    requires Ranked(k)
    ensures Ranked(k.(user := k.user[s := v]))
  {
    var k' := k.(user := k.user[s := v]);
    forall t ensures RankedAt(k', t) { assert RankedAt(k, t); }
  }

  /** A setting that does not change the symbol changes no other. */
  lemma {:induction false} SettingUnfeltAt(k: Kconfig, s: Symbol, v: SymVal, t: Symbol)
    requires Ranked(k) && Ranked(k.(user := k.user[s := v]))
    requires Calc(k.(user := k.user[s := v]), s) == Calc(k, s)
    ensures Calc(k.(user := k.user[s := v]), t) == Calc(k, t)
    decreases k.rank(t)
  {
    var k' := k.(user := k.user[s := v]);
    if t in k.graph && t != s {
      assert RankedAt(k, t);
      forall x | x in EvalDeps(k.graph[t]) ensures AllVals(k)(x) == AllVals(k')(x) {
        SettingUnfeltAt(k, s, v, x);
      }
      CalcIsFixpoint(k, t);
      CalcIsFixpoint(k', t);
      CalcDeclAgrees(t, k.graph[t], UserOf(k.user, t), AllVals(k), AllVals(k'), k.modules);
    }
  }

  lemma SettingUnfelt(k: Kconfig, s: Symbol, v: SymVal)
    requires Ranked(k) && Ranked(k.(user := k.user[s := v])) && s in k.graph && IsLogical(s)
    requires Calc(k.(user := k.user[s := v]), s).tri == Calc(k, s).tri
    ensures forall t :: AllVals(k.(user := k.user[s := v]))(t) == AllVals(k)(t)
  {
    var k' := k.(user := k.user[s := v]);
    CalcIsFixpoint(k, s);
    CalcIsFixpoint(k', s);
    forall t ensures AllVals(k')(t) == AllVals(k)(t) { SettingUnfeltAt(k, s, v, t); }
  }

  lemma StateUnfelt(k: Kconfig, s: Symbol, v: SymVal, t: Symbol)
    requires Ranked(k) && Ranked(k.(user := k.user[s := v]))
    requires forall x :: AllVals(k.(user := k.user[s := v]))(x) == AllVals(k)(x)
    ensures forall st :: t in k.graph ==>
              (Settled(k, AllVals(k), t, st) <==> Settled(k.(user := k.user[s := v]), AllVals(k.(user := k.user[s := v])), t, st))
  {
    if t in k.graph {
      assert RankedAt(k, t);
      PartsAgree(t, k.graph[t], AllVals(k), AllVals(k.(user := k.user[s := v])), k.modules);
    }
  }

  /** Whether SYMBOL_WRITE is set, but for generated symbols: the symbol is in reach
      of the user, demanded by others, or has a default that applies. */
  ghost predicate Writes(s: Symbol, d: Decl, env: Env, modules: Tristate)
    requires s.Config?
  {
    var p := DefaultOf(d.props, env);
    || Visible(s, d, env, modules) != NO
    || (if IsLogical(s) then RevDep(s, d, env, modules) != NO || p.Some?
        else p.Some? && PropSymbol(p.value).Some?)
  }

  lemma PromptsStep(props: seq<Property>, i: nat, env: Env)
    requires i < |props|
    ensures props[i..][1..] == props[i + 1..]
    ensures !props[i].hasText ==> Prompts(props[i..]) == Prompts(props[i + 1..])
    ensures Prompts(props[i..]) == (if props[i].hasText then [props[i].visible] else []) + Prompts(props[i + 1..])
    ensures props[i].hasText ==>
              && PromptsValue(Prompts(props[i..]), env)
              == TriOr(OptValue(props[i].visible, env), PromptsValue(Prompts(props[i + 1..]), env))
              && OptsSymbols(Prompts(props[i..])) == OptSymbols(props[i].visible) + OptsSymbols(Prompts(props[i + 1..]))
  {
    assert props[i..][1..] == props[i + 1..];
    if props[i].hasText { assert Prompts(props[i..])[1..] == Prompts(props[i + 1..]); }
  }

  const TRI_A: Symbol := Config(0, TristateType)

  /** A tristate symbol whose prompt is visible at m, with the default y. */
  const HIGH_DEFAULT: Decl := Decl("A", [
    Property(PromptProp, true, Some(Sym(SymMod)), None),
    Property(DefaultProp, false, None, Some(Sym(SymYes)))], None, None, false)

  /** That symbol alone, with modules on and no settings. */
  function HighDefault(): Kconfig {
    Kconfig(map[TRI_A := HIGH_DEFAULT], YES, map[], (s: Symbol) => if s == TRI_A then 1 else 0)
  }

  lemma HighDefaultParts(k: Kconfig)
    requires Ranked(k) && k.graph == map[TRI_A := HIGH_DEFAULT] && k.modules == YES
    ensures var d, env := HIGH_DEFAULT, AllEnv(k);
            Visible(TRI_A, d, env, YES) == MOD && RevDep(TRI_A, d, env, YES) == NO && DefaultTri(d.props, env) == YES
  {
    var ps := HIGH_DEFAULT.props;
    assert ps[1..] == [ps[1]] && ps[1..][1..] == [];
    assert Prompts(ps) == [Some(Sym(SymMod))] && Prompts(ps)[1..] == [];
    CalcIsFixpoint(k, SymYes);
    CalcIsFixpoint(k, SymMod);
    assert AllEnv(k).tri(SymMod) == MOD && AllEnv(k).tri(SymYes) == YES;
  }

  /** By its default it stands above its visibility. */
  lemma HighDefaultIsHigh()
    ensures Ranked(HighDefault()) && Calc(HighDefault(), TRI_A) == SymVal("n", YES)
    ensures Visible(TRI_A, HIGH_DEFAULT, AllEnv(HighDefault()), YES) == MOD
    ensures RevDep(TRI_A, HIGH_DEFAULT, AllEnv(HighDefault()), YES) == NO
  {
    var k := HighDefault();
    forall s ensures RankedAt(k, s) {
      if s == TRI_A { HighDefaultDeps(); }
    }
    HighDefaultParts(k);
    CalcIsFixpoint(k, TRI_A);
  }

  lemma HighDefaultDeps()
    ensures EvalDeps(HIGH_DEFAULT) == {SymMod, SymYes}
  {
    var ps := HIGH_DEFAULT.props;
    assert ps[1..] == [ps[1]] && ps[1..][1..] == [];
    assert Prompts(ps) == [Some(Sym(SymMod))] && Prompts(ps)[1..] == [];
  }

  /** Once the user sets it, the setting counts only as far as it is visible. */
  lemma SettledAtMod(k: Kconfig)
    requires Ranked(k) && k.graph == map[TRI_A := HIGH_DEFAULT] && k.modules == YES
    requires TRI_A in k.user && k.user[TRI_A].tri == YES
    ensures Calc(k, TRI_A).tri == MOD
  {
    HighDefaultParts(k);
    CalcIsFixpoint(k, TRI_A);
  }

  /** So the setting y for it is accepted, being its value, but does not take effect: a
      cache that was right before is kept, and is wrong. */
  lemma KeptCacheCanBeWrong(store: Store)
    requires store.Keys == {TRI_A} && store[TRI_A].valid && Ranked(HighDefault()) && AllUpToDate(HighDefault(), store)
    ensures var k := HighDefault(); var k' := k.(user := k.user[TRI_A := NewSetting(k.user, TRI_A, YES)]);
            && store[TRI_A].curr.tri == YES && !TakesEffect(k, TRI_A, YES)
            && Ranked(k') && Calc(k', TRI_A).tri == MOD && !AllUpToDate(k', store)
  {
    var k, v := HighDefault(), NewSetting(map[], TRI_A, YES);
    HighDefaultIsHigh();
    StillRanked(k, TRI_A, v);
    assert UpToDate(k, store, TRI_A);
    SettledAtMod(k.(user := k.user[TRI_A := v]));
    CacheSurvivesIff(k, TRI_A, v, store);
  }
}
