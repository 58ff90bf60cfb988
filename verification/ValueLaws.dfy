/** What the value of a symbol is, in terms of its properties alone: which prompts, which
    default and which demands count (sym_calc_value, sym_calc_visibility). */
module ValueLaws {
  import opened Tristates
  import opened Exprs
  import opened Transform
  import opened SymbolGraph
  import opened SymbolValue
  import opened Evaluator

  /** `v` is the greatest condition of a property with a prompt, or no without any. */
  ghost predicate IsGreatest(props: seq<Property>, env: Env, v: Tristate) {
    && (forall i :: 0 <= i < |props| && props[i].hasText ==> OptValue(props[i].visible, env) <= v)
    && (v != NO ==> exists i :: 0 <= i < |props| && props[i].hasText && OptValue(props[i].visible, env) == v)
  }

  /** The property is a default whose condition is not no. */
  ghost predicate Applies(p: Property, env: Env) { p.kind.DefaultProp? && OptValue(p.visible, env) != NO }

  ghost predicate IsFirst(props: seq<Property>, env: Env, i: nat) {
    i < |props| && Applies(props[i], env) && forall j :: 0 <= j < i ==> !Applies(props[j], env)
  }

  ghost predicate NoneApplies(props: seq<Property>, env: Env) {
    forall j :: 0 <= j < |props| ==> !Applies(props[j], env)
  }

  /** Whether a mod counts as a yes: the symbol is boolean, or modules are off. */
  predicate IsTwoValued(s: Symbol, modules: Tristate) { !IsTristate(s) || modules == NO }

  function Up(twoValued: bool, v: Tristate): Tristate { if twoValued && v == MOD then YES else v }

  lemma {:induction false} PromptsGreatest(props: seq<Property>, env: Env)
    ensures IsGreatest(props, env, PromptsValue(Prompts(props), env))
  {
    if props != [] {
      var rest := props[1..];
      PromptsGreatest(rest, env);
      PromptsStep(props, 0, env);
      assert props[0..] == props;
      var v, w := PromptsValue(Prompts(props), env), PromptsValue(Prompts(rest), env);
      forall i | 0 <= i < |props| && props[i].hasText ensures OptValue(props[i].visible, env) <= v {
        if i > 0 { assert props[i] == rest[i - 1]; }
      }
      if v != NO && !(props[0].hasText && OptValue(props[0].visible, env) == v) {
        var i :| 0 <= i < |rest| && rest[i].hasText && OptValue(rest[i].visible, env) == w;
        assert props[i + 1] == rest[i];
      }
    }
  }

  lemma GreatestIsOne(props: seq<Property>, env: Env, v: Tristate, w: Tristate)
    requires IsGreatest(props, env, v) && IsGreatest(props, env, w)
    ensures v == w
  {}

  lemma {:induction false} DefaultIsFirst(props: seq<Property>, env: Env, i: nat)
    requires IsFirst(props, env, i)
    ensures DefaultOf(props, env) == Some(props[i])
  {
    if i > 0 {
      assert !Applies(props[0], env);
      forall j | 0 <= j < i - 1 ensures !Applies(props[1..][j], env) { assert !Applies(props[j + 1], env); }
      DefaultIsFirst(props[1..], env, i - 1);
    }
  }

  lemma {:induction false} DefaultIsNone(props: seq<Property>, env: Env)
    requires NoneApplies(props, env)
    ensures DefaultOf(props, env) == None
  {
    if props != [] {
      assert !Applies(props[0], env);
      forall j | 0 <= j < |props[1..]| ensures !Applies(props[1..][j], env) { assert !Applies(props[j + 1], env); }
      DefaultIsNone(props[1..], env);
    }
  }

  /** The visibility: the greatest condition of a prompt, mod promoted where it has to be. */
  lemma VisibleIs(s: Symbol, d: Decl, env: Env, modules: Tristate, v: Tristate)
    requires IsGreatest(d.props, env, v)
    ensures Visible(s, d, env, modules) == Up(IsTwoValued(s, modules), v)
  {
    PromptsGreatest(d.props, env);
    GreatestIsOne(d.props, env, v, PromptsValue(Prompts(d.props), env));
  }

  /** What a symbol is worth by itself: its setting as far as it is visible, or else its
      first default that applies, as far as the condition and the default's own value go. */
  ghost predicate IsOwn(k: Kconfig, s: Symbol, visible: Tristate, own: Tristate)
    requires Ranked(k) && s in k.graph
  {
    var props, env := k.graph[s].props, AllEnv(k);
    if s in k.user && visible != NO then
      own <= k.user[s].tri && own <= visible && (own == k.user[s].tri || own == visible)
    else
      && (NoneApplies(props, env) ==> own == NO)
      && (forall i: nat :: IsFirst(props, env, i) ==>
            var cond, value := OptValue(props[i].visible, env), OptValue(props[i].expr, env);
            own <= cond && own <= value && (own == cond || own == value))
  }

  lemma {:induction false} SomeIsFirst(props: seq<Property>, env: Env) returns (i: nat)
    requires !NoneApplies(props, env)
    ensures IsFirst(props, env, i)
  {
    i := 0;
    while !Applies(props[i], env)
      invariant i < |props| && forall j :: 0 <= j < i ==> !Applies(props[j], env)
      decreases |props| - i
    {
      var j :| 0 <= j < |props| && Applies(props[j], env);
      assert i < j;
      i := i + 1;
    }
  }

  /** A boolean or tristate symbol is worth what it is by itself or what the symbols that
      select it demand, whichever is more; mod is promoted while it counts as boolean. */
  lemma LogicalLaw(k: Kconfig, s: Symbol, prompts: Tristate, own: Tristate, rev: Tristate)
    requires Ranked(k) && s in k.graph && IsLogical(s)
    requires IsGreatest(k.graph[s].props, AllEnv(k), prompts)
    requires IsOwn(k, s, Up(IsTwoValued(s, k.modules), prompts), own)
    requires rev == if k.graph[s].revDep.None? then NO else Value(k.graph[s].revDep.value, AllEnv(k))
    ensures Calc(k, s).tri == Up(IsTwoValued(s, k.modules), if own >= rev then own else rev)
  {
    var d, env := k.graph[s], AllEnv(k);
    LogicalCalc(k, s);
    VisibleIs(s, d, env, k.modules, prompts);
    if NoneApplies(d.props, env) {
      DefaultIsNone(d.props, env);
    } else {
      var i := SomeIsFirst(d.props, env);
      DefaultIsFirst(d.props, env, i);
    }
  }

  /** An int, hex or string symbol is worth its setting if it is visible, or else the text
      of the symbol that its first applicable default names. */
  lemma TextLaw(k: Kconfig, s: Symbol, prompts: Tristate)
    requires Ranked(k) && s in k.graph && HasVisibility(s) && !IsLogical(s)
    requires IsGreatest(k.graph[s].props, AllEnv(k), prompts)
    ensures s in k.user && prompts != NO ==> Calc(k, s).val == k.user[s].val
    ensures !(s in k.user && prompts != NO) && NoneApplies(k.graph[s].props, AllEnv(k)) ==> Calc(k, s).val == ""
    ensures forall i: nat, t ::
      (!(s in k.user && prompts != NO) && IsFirst(k.graph[s].props, AllEnv(k), i)
        && k.graph[s].props[i].expr == Some(Sym(t))) ==> Calc(k, s).val == Calc(k, t).val
    ensures forall i: nat ::
      (!(s in k.user && prompts != NO) && IsFirst(k.graph[s].props, AllEnv(k), i)
        && PropSymbol(k.graph[s].props[i]).None?) ==> Calc(k, s).val == ""
  {
    var d, env := k.graph[s], AllEnv(k);
    CalcIsFixpoint(k, s);
    VisibleIs(s, d, env, k.modules, prompts);
    if NoneApplies(d.props, env) { DefaultIsNone(d.props, env); }
    forall i: nat | IsFirst(d.props, env, i)
      ensures DefaultOf(d.props, env) == Some(d.props[i])
    {
      DefaultIsFirst(d.props, env, i);
    }
  }

  /** The direct dependencies: yes if there are none, and yes instead of mod. */
  lemma DirDepIs(d: Decl, env: Env)
    ensures d.dirDep.None? ==> DirDep(d, env) == YES
    ensures d.dirDep.Some? ==> DirDep(d, env) == Up(true, Value(d.dirDep.value, env))
  {}

  /** What the symbols that select one demand: yes instead of mod while it counts as
      boolean. */
  lemma RevDepIs(s: Symbol, d: Decl, env: Env, modules: Tristate)
    requires IsLogical(s)
    ensures d.revDep.None? ==> RevDep(s, d, env, modules) == NO
    ensures d.revDep.Some? ==> RevDep(s, d, env, modules) == Up(IsTwoValued(s, modules), Value(d.revDep.value, env))
  {}

  ghost predicate InReach(props: seq<Property>, env: Env) {
    exists i :: 0 <= i < |props| && props[i].hasText && OptValue(props[i].visible, env) != NO
  }

  /** A default applies; that of a string or number has to name a symbol. */
  ghost predicate HasDefault(s: Symbol, props: seq<Property>, env: Env) {
    exists i: nat :: IsFirst(props, env, i) && (IsLogical(s) || (props[i].expr.Some? && props[i].expr.value.Sym?))
  }

  ghost predicate IsSelected(d: Decl, env: Env) { d.revDep.Some? && Value(d.revDep.value, env) != NO }

  lemma HasDefaultIff(s: Symbol, props: seq<Property>, env: Env)
    ensures var p := DefaultOf(props, env);
      HasDefault(s, props, env) <==> p.Some? && (IsLogical(s) || PropSymbol(p.value).Some?)
  {
    if NoneApplies(props, env) {
      DefaultIsNone(props, env);
    } else {
      var i := SomeIsFirst(props, env);
      DefaultIsFirst(props, env, i);
      forall j: nat | IsFirst(props, env, j) ensures j == i {}
    }
  }

  ghost predicate Matters(s: Symbol, d: Decl, env: Env) {
    InReach(d.props, env) || HasDefault(s, d.props, env) || (IsLogical(s) && IsSelected(d, env))
  }

  /** A symbol is written if and only if it is not generated, and a prompt is in reach or a
      default applies or, if it is boolean or tristate, it is selected. */
  lemma WrittenIff(k: Kconfig, s: Symbol)
    requires Ranked(k) && s in k.graph && HasVisibility(s)
    ensures IsWritten(k, s) <==> !k.graph[s].auto && Matters(s, k.graph[s], AllEnv(k))
  {
    var d, env := k.graph[s], AllEnv(k);
    PromptsGreatest(d.props, env);
    VisibleIs(s, d, env, k.modules, PromptsValue(Prompts(d.props), env));
    HasDefaultIff(s, d.props, env);
  }
}
