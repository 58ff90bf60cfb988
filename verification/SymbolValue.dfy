/** What every symbol is worth, as a recursive function of the declarations and the
    user's settings (sym_calc_value and sym_calc_visibility without their caches;
    choices and ranges apart). */
module SymbolValue {
  import opened Tristates
  import opened Exprs
  import opened Transform
  import opened SymbolGraph

  /** `curr` and `def[S_DEF_USER]` of a symbol. */
  datatype SymVal = SymVal(val: string, tri: Tristate)

  type Vals = Symbol -> SymVal

  /** The declarations, the value of the modules symbol, the user's settings (with
      SYMBOL_DEF_USER set), and a witness that no evaluation is circular. */
  datatype Kconfig = Kconfig(graph: Graph, modules: Tristate, user: map<Symbol, SymVal>, rank: Symbol -> nat)

  const NO_VALUE: SymVal := SymVal("n", NO)
  const EMPTY_VALUE: SymVal := SymVal("", NO)

  /** Symbols that no declaration changes. */
  function FixedVal(s: Symbol): SymVal {
    match s
    case SymYes => SymVal("y", YES)
    case SymMod => SymVal("m", MOD)
    case SymNo => NO_VALUE
    case Quoted(t) => SymVal(t, NO)
    case Config(_, _) => if IsLogical(s) then NO_VALUE else EMPTY_VALUE
  }

  /** sym_get_string_value. */
  function StringValue(s: Symbol, v: SymVal, modules: Tristate): string {
    if !IsLogical(s) then v.val
    else if v.tri == NO then "n"
    else if v.tri == MOD then (if modules == NO then "n" else "m")
    else "y"
  }

  ghost function EnvOf(vals: Vals, modules: Tristate): Env {
    Env((s: Symbol) => vals(s).tri, (s: Symbol) => StringValue(s, vals(s), modules))
  }

  /** The conditions of the properties with a prompt. */
  function Prompts(props: seq<Property>): seq<Option<Expr>> {
    if props == [] then []
    else (if props[0].hasText then [props[0].visible] else []) + Prompts(props[1..])
  }

  function OptsSymbols(es: seq<Option<Expr>>): set<Symbol> {
    if es == [] then {} else OptSymbols(es[0]) + OptsSymbols(es[1..])
  }

  function DefaultsSymbols(props: seq<Property>): set<Symbol> {
    if props == [] then {}
    else (if props[0].kind.DefaultProp? then OptSymbols(props[0].visible) + OptSymbols(props[0].expr) else {})
         + DefaultsSymbols(props[1..])
  }

  /** Everything the evaluation of a symbol may look at. */
  function EvalDeps(d: Decl): set<Symbol> {
    OptsSymbols(Prompts(d.props)) + DefaultsSymbols(d.props) + OptSymbols(d.dirDep) + OptSymbols(d.revDep)
  }

  ghost predicate Under(k: Kconfig, symbols: set<Symbol>, r: nat) {
    forall s :: s in symbols ==> k.rank(s) < r
  }

  ghost predicate RankedAt(k: Kconfig, s: Symbol) {
    s in k.graph ==> s.Config? && Under(k, EvalDeps(k.graph[s]), k.rank(s))
  }

  /** No evaluation is circular. */
  ghost predicate Ranked(k: Kconfig) { forall s :: RankedAt(k, s) }

  /** Only properties that the recursion check visits carry a prompt. */
  ghost predicate PromptsAreChecked(props: seq<Property>) {
    forall p :: p in props && p.hasText ==> !p.kind.ChoiceProp? && !p.kind.SelectProp?
  }

  lemma {:induction false} EvalDepsAreChecked(props: seq<Property>)
    requires PromptsAreChecked(props)
    ensures OptsSymbols(Prompts(props)) <= PropsDeps(props) && DefaultsSymbols(props) <= PropsDeps(props)
  {
    if props != [] {
      EvalDepsAreChecked(props[1..]);
      assert props[0] in props;
      if props[0].hasText {
        assert Prompts(props)[1..] == Prompts(props[1..]);
      } else {
        assert Prompts(props) == Prompts(props[1..]);
      }
    }
  }

  /** Symbols that an expression mentions, but for constants, which depend on nothing. */
  function OptConfigs(e: Option<Expr>): set<Symbol> { set s | s in OptSymbols(e) && s.Config? }

  /** The place in the order of the search, behind all constants. */
  function RankIn(order: seq<Symbol>, s: Symbol): nat { if s.Config? then Place(order, s) + 1 else 0 }

  /** A configuration of these symbols, ranked by an order of the search. */
  ghost function RankedIn(order: seq<Symbol>, g: Graph, modules: Tristate, user: map<Symbol, SymVal>): Kconfig {
    Kconfig(g, modules, user, (s: Symbol) => RankIn(order, s))
  }

  /** A search for recursion that reports nothing leaves an order in which every
      evaluation is well-founded, provided each symbol's direct dependencies are
      among the conditions of its properties: sym_check_deps does not visit them. */
  lemma CheckedIsRanked(g: Graph, order: seq<Symbol>, modules: Tristate, user: map<Symbol, SymVal>)
    requires Ordered(DepsOf(g), order) && forall s :: s in g ==> s in order && s.Config?
    requires forall s :: s in g ==> PromptsAreChecked(g[s].props) && OptConfigs(g[s].dirDep) <= Deps(g[s])
    ensures Ranked(RankedIn(order, g, modules, user))
  {
    var k := RankedIn(order, g, modules, user);
    forall s ensures RankedAt(k, s) {
      if s in g {
        EvalDepsAreChecked(g[s].props);
        forall t | t in EvalDeps(g[s]) && t.Config? ensures k.rank(t) < k.rank(s) {
          assert t in OptSymbols(g[s].dirDep) ==> t in OptConfigs(g[s].dirDep);
          OrderedPlaces(DepsOf(g), order, s, t);
        }
      }
    }
  }

  /** sym_get_type: tristate symbols are boolean while modules are off. */
  function TypeNow(s: Symbol, modules: Tristate): SymbolType
    requires s.Config?
  {
    if s.typ == TristateType && modules == NO then BooleanType else s.typ
  }

  /** The first part of sym_calc_visibility: the prompts of `s` have these conditions. */
  function PromptsVisible(s: Symbol, prompts: seq<Option<Expr>>, env: Env, modules: Tristate): Tristate {
    var v := PromptsValue(prompts, env);
    if !IsTristate(s) || modules == NO then Promote(v) else v
  }

  /** The field `visible` after sym_calc_visibility. */
  ghost function Visible(s: Symbol, d: Decl, env: Env, modules: Tristate): Tristate {
    PromptsVisible(s, Prompts(d.props), env, modules)
  }

  /** The field `dir_dep.tri`. */
  ghost function DirDep(d: Decl, env: Env): Tristate { Promote(OptValue(d.dirDep, env)) }

  /** The field `rev_dep.tri`: what the symbols that select this one demand. */
  ghost function RevDep(s: Symbol, d: Decl, env: Env, modules: Tristate): Tristate
    requires s.Config?
  {
    var v := if d.revDep.None? then NO else Value(d.revDep.value, env);
    if TypeNow(s, modules) == BooleanType then Promote(v) else v
  }

  /** sym_get_default_prop: the first default whose condition holds. */
  ghost function DefaultOf(props: seq<Property>, env: Env): Option<Property> {
    if props == [] then None
    else if props[0].kind.DefaultProp? && OptValue(props[0].visible, env) != NO then Some(props[0])
    else DefaultOf(props[1..], env)
  }

  /** What the first applicable default is worth under its condition. */
  ghost function DefaultTri(props: seq<Property>, env: Env): Tristate {
    match DefaultOf(props, env)
    case Some(p) => TriAnd(OptValue(p.expr, env), OptValue(p.visible, env))
    case None => NO
  }

  /** How a boolean or tristate symbol follows from its visibility, the user's
      setting, its default and the demands of others. */
  function Settle(visible: Tristate, user: Option<SymVal>, default: Tristate, rev: Tristate, typ: SymbolType): Tristate {
    var own := if visible != NO && user.Some? then TriAnd(user.value.tri, visible) else default;
    var v := TriOr(own, rev);
    if typ == BooleanType then Promote(v) else v
  }

  function UserOf(user: map<Symbol, SymVal>, s: Symbol): Option<SymVal> {
    if s in user then Some(user[s]) else None
  }

  /** The value of a boolean or tristate symbol. */
  ghost function LogicalValue(s: Symbol, d: Decl, user: Option<SymVal>, env: Env, modules: Tristate): Tristate
    requires s.Config?
  {
    Settle(Visible(s, d, env, modules), user, DefaultTri(d.props, env),
           RevDep(s, d, env, modules), TypeNow(s, modules))
  }

  /** prop_get_symbol. */
  function PropSymbol(p: Property): Option<Symbol> {
    match p.expr
    case Some(Sym(s)) => Some(s)
    case _ => None
  }

  /** The value of an int, hex or string symbol. */
  ghost function TextValue(s: Symbol, d: Decl, user: Option<SymVal>, vals: Vals, modules: Tristate): string {
    var env := EnvOf(vals, modules);
    if Visible(s, d, env, modules) != NO && user.Some? then user.value.val
    else match DefaultOf(d.props, env)
      case Some(p) => if PropSymbol(p).Some? then vals(PropSymbol(p).value).val else ""
      case None => ""
  }

  /** One symbol, given the values of the others. */
  ghost function CalcWith(k: Kconfig, s: Symbol, vals: Vals): SymVal {
    if s !in k.graph || !s.Config? then FixedVal(s)
    else CalcDecl(s, k.graph[s], UserOf(k.user, s), vals, k.modules)
  }

  ghost function CalcDecl(s: Symbol, d: Decl, user: Option<SymVal>, vals: Vals, modules: Tristate): SymVal
    requires s.Config?
  {
    if IsLogical(s) then SymVal("n", LogicalValue(s, d, user, EnvOf(vals, modules), modules))
    else if s.typ == UnknownType || s.typ == OtherType then SymVal(d.name, NO)
    else SymVal(TextValue(s, d, user, vals, modules), NO)
  }

  /** The value of a symbol, by recursion along the rank. */
  ghost function Calc(k: Kconfig, s: Symbol): SymVal
    requires Ranked(k)
    decreases k.rank(s)
  {
    CalcWith(k, s, (t: Symbol) => if k.rank(t) < k.rank(s) then Calc(k, t) else EMPTY_VALUE)
  }

  ghost function AllVals(k: Kconfig): Vals
    requires Ranked(k)
  {
    (s: Symbol) => Calc(k, s)
  }

  ghost function AllEnv(k: Kconfig): Env
    requires Ranked(k)
  {
    EnvOf(AllVals(k), k.modules)
  }

  ghost predicate AgreeOn(dom: set<Symbol>, v: Vals, w: Vals) { forall s :: s in dom ==> v(s) == w(s) }

  lemma OptAgrees(e: Option<Expr>, v: Vals, w: Vals, modules: Tristate)
    requires AgreeOn(OptSymbols(e), v, w)
    ensures OptValue(e, EnvOf(v, modules)) == OptValue(e, EnvOf(w, modules))
  {
    if e.Some? { ValueAgrees(e.value, EnvOf(v, modules), EnvOf(w, modules)); }
  }

  lemma {:induction false} PromptsAgree(es: seq<Option<Expr>>, v: Vals, w: Vals, modules: Tristate)
    requires AgreeOn(OptsSymbols(es), v, w)
    ensures PromptsValue(es, EnvOf(v, modules)) == PromptsValue(es, EnvOf(w, modules))
  {
    if es != [] {
      OptAgrees(es[0], v, w, modules);
      PromptsAgree(es[1..], v, w, modules);
    }
  }

  /** Both value functions pick the same default, and are worth the same in it. */
  lemma {:induction false} DefaultsAgree(props: seq<Property>, v: Vals, w: Vals, modules: Tristate)
    requires AgreeOn(DefaultsSymbols(props), v, w)
    ensures DefaultOf(props, EnvOf(v, modules)) == DefaultOf(props, EnvOf(w, modules))
    ensures DefaultTri(props, EnvOf(v, modules)) == DefaultTri(props, EnvOf(w, modules))
    ensures var p := DefaultOf(props, EnvOf(v, modules));
            p.Some? && PropSymbol(p.value).Some? ==> v(PropSymbol(p.value).value) == w(PropSymbol(p.value).value)
  {
    if props != [] {
      if props[0].kind.DefaultProp? {
        OptAgrees(props[0].visible, v, w, modules);
        OptAgrees(props[0].expr, v, w, modules);
      }
      DefaultsAgree(props[1..], v, w, modules);
    }
  }

  /** Everything that enters the value of a symbol agrees. */
  lemma PartsAgree(s: Symbol, d: Decl, v: Vals, w: Vals, modules: Tristate)
    requires s.Config? && AgreeOn(EvalDeps(d), v, w)
    ensures Visible(s, d, EnvOf(v, modules), modules) == Visible(s, d, EnvOf(w, modules), modules)
    ensures RevDep(s, d, EnvOf(v, modules), modules) == RevDep(s, d, EnvOf(w, modules), modules)
    ensures DefaultTri(d.props, EnvOf(v, modules)) == DefaultTri(d.props, EnvOf(w, modules))
    ensures forall user :: TextValue(s, d, user, v, modules) == TextValue(s, d, user, w, modules)
  {
    PromptsAgree(Prompts(d.props), v, w, modules);
    OptAgrees(d.revDep, v, w, modules);
    DefaultsAgree(d.props, v, w, modules);
  }

  lemma CalcDeclAgrees(s: Symbol, d: Decl, user: Option<SymVal>, v: Vals, w: Vals, modules: Tristate)
    requires s.Config? && AgreeOn(EvalDeps(d), v, w)
    ensures CalcDecl(s, d, user, v, modules) == CalcDecl(s, d, user, w, modules)
  {
    PartsAgree(s, d, v, w, modules);
  }

  /** The recursion closes: every value is computed from the final values. */
  lemma CalcIsFixpoint(k: Kconfig, s: Symbol)
    requires Ranked(k)
    ensures Calc(k, s) == CalcWith(k, s, AllVals(k))
  {
    if s in k.graph {
      assert RankedAt(k, s);
      var below: Vals := (t: Symbol) => if k.rank(t) < k.rank(s) then Calc(k, t) else EMPTY_VALUE;
      CalcDeclAgrees(s, k.graph[s], UserOf(k.user, s), below, AllVals(k), k.modules);
    }
  }

  /** The values computed form a well-typed environment, the one hypothesis of
      everything proved about the simplifier. */
  lemma CalcIsWellTyped(k: Kconfig)
    requires Ranked(k)
    ensures WellTyped(AllEnv(k))
  {
    forall s: Symbol ensures TypedAt(AllEnv(k), s) {
      CalcIsTyped(k, s);
    }
    CalcIsFixpoint(k, SymYes);
    CalcIsFixpoint(k, SymMod);
    CalcIsFixpoint(k, SymNo);
  }

  lemma CalcIsTyped(k: Kconfig, s: Symbol)
    requires Ranked(k)
    ensures TypedAt(AllEnv(k), s)
  {
    CalcIsFixpoint(k, s);
    assert AllEnv(k).tri(s) == Calc(k, s).tri && AllEnv(k).str(s) == StringValue(s, Calc(k, s), k.modules);
  }

  /** The value of a declared boolean or tristate symbol, in terms of final values. */
  lemma LogicalCalc(k: Kconfig, s: Symbol)
    requires Ranked(k) && s in k.graph && IsLogical(s)
    ensures Calc(k, s).tri == LogicalValue(s, k.graph[s], UserOf(k.user, s), AllEnv(k), k.modules)
  {
    CalcIsFixpoint(k, s);
  }

  /** A symbol is never worth less than the symbols that select it demand. */
  lemma NeverBelowRevDep(k: Kconfig, s: Symbol)
    requires Ranked(k) && s in k.graph && IsLogical(s)
    ensures Calc(k, s).tri >= RevDep(s, k.graph[s], AllEnv(k), k.modules)
  {
    LogicalCalc(k, s);
  }

  /** A setting is felt only by symbols of higher rank. */
  lemma {:induction false} SettingNotFeltBelow(k: Kconfig, s: Symbol, v: SymVal, t: Symbol)
    requires Ranked(k) && Ranked(k.(user := k.user[s := v])) && k.rank(t) <= k.rank(s) && t != s
    ensures Calc(k.(user := k.user[s := v]), t) == Calc(k, t)
    decreases k.rank(t)
  {
    if t in k.graph {
      var k' := k.(user := k.user[s := v]);
      assert RankedAt(k, t);
      SettingNotFeltByDeps(k, s, v, t);
      CalcIsFixpoint(k, t);
      CalcIsFixpoint(k', t);
      CalcDeclAgrees(t, k.graph[t], UserOf(k.user, t), AllVals(k), AllVals(k'), k.modules);
    }
  }

  lemma {:induction false} SettingNotFeltByDeps(k: Kconfig, s: Symbol, v: SymVal, t: Symbol)
    requires Ranked(k) && Ranked(k.(user := k.user[s := v])) && k.rank(t) <= k.rank(s) && t in k.graph
    ensures AgreeOn(EvalDeps(k.graph[t]), AllVals(k), AllVals(k.(user := k.user[s := v])))
    decreases k.rank(t), 0
  {
    assert RankedAt(k, t);
    forall x | x in EvalDeps(k.graph[t]) ensures AllVals(k)(x) == AllVals(k.(user := k.user[s := v]))(x) {
      SettingNotFeltBelow(k, s, v, x);
    }
  }

  /** Exactly when the setting `val` of a boolean or tristate symbol becomes its value. */
  ghost predicate TakesEffect(k: Kconfig, s: Symbol, val: Tristate)
    requires Ranked(k) && s in k.graph && s.Config?
  {
    var visible := Visible(s, k.graph[s], AllEnv(k), k.modules);
    var rev := RevDep(s, k.graph[s], AllEnv(k), k.modules);
    if visible == NO then Calc(k, s).tri == val
    else
      && rev <= val
      && (val <= visible || val == rev)
      && !(val == MOD && TypeNow(s, k.modules) == BooleanType)
  }

  lemma SettleTakesEffect(visible: Tristate, user: Option<SymVal>, v: SymVal, default: Tristate, rev: Tristate, typ: SymbolType)
    requires typ == BooleanType ==> visible != MOD && rev != MOD
    ensures Settle(visible, Some(v), default, rev, typ) == v.tri <==>
            if visible == NO then Settle(visible, user, default, rev, typ) == v.tri
            else rev <= v.tri && (v.tri <= visible || v.tri == rev) && !(v.tri == MOD && typ == BooleanType)
  {}

  /** The value under a new setting, in terms of the old environment. */
  lemma LogicalCalcAfter(k: Kconfig, s: Symbol, v: SymVal)
    requires Ranked(k) && Ranked(k.(user := k.user[s := v])) && s in k.graph && IsLogical(s)
    ensures Calc(k.(user := k.user[s := v]), s).tri == LogicalValue(s, k.graph[s], Some(v), AllEnv(k), k.modules)
  {
    var k' := k.(user := k.user[s := v]);
    SettingNotFeltByDeps(k, s, v, s);
    LogicalCalc(k', s);
    PartsAgree(s, k.graph[s], AllVals(k), AllVals(k'), k.modules);
  }

  lemma SettingTakesEffect(k: Kconfig, s: Symbol, v: SymVal)
    requires Ranked(k) && Ranked(k.(user := k.user[s := v])) && s in k.graph && IsLogical(s)
    ensures Calc(k.(user := k.user[s := v]), s).tri == v.tri <==> TakesEffect(k, s, v.tri)
  {
    var d, env := k.graph[s], AllEnv(k);
    LogicalCalc(k, s);
    LogicalCalcAfter(k, s, v);
    SettleTakesEffect(Visible(s, d, env, k.modules), UserOf(k.user, s), v, DefaultTri(d.props, env),
                      RevDep(s, d, env, k.modules), TypeNow(s, k.modules));
  }
}
