/** What menu_finalize adds to `rev_dep` and `dir_dep` over a whole tree, entry by entry:
    the greatest demand of any select, prompt or childless entry, and nothing else
    (menu.c). */
module SelectLaws {
  import opened Tristates
  import opened Exprs
  import opened Forests
  import opened MenuTree
  import opened MenuConds
  import opened MenuSelects

  /** The `j`-th property of the `i`-th entry selects `s`, as far as `w`. */
  ghost predicate SelectsBy(x: Fixed, c: Conds, i: nat, j: nat, s: Symbol, env: Env, w: Tristate) {
    && i < |x.sym| && i < |c.props| && x.sym[i].Some? && j < |c.props[i]|
    && c.props[i][j].kind.SelectProp? && c.props[i][j].expr == Some(Sym(s))
    && w == TriAnd(env.tri(x.sym[i].value), OptValue(c.props[i][j].visible, env))
  }

  /** The `i`-th entry is one for `s`, which is not optional; its prompt reaches as far as
      `w`, at most to mod. */
  ghost predicate PromptsBy(x: Fixed, optional: set<Symbol>, c: Conds, i: nat, s: Symbol, env: Env, w: Tristate) {
    && i < |x.sym| && i < |x.prompt| && i < |c.props| && x.sym[i] == Some(s) && s !in optional
    && x.prompt[i].Some? && x.prompt[i].value < |c.props[i]|
    && w == TriAnd(OptValue(c.props[i][x.prompt[i].value].visible, env), env.tri(SymMod))
  }

  /** The `i`-th entry is one for `s`, with a condition worth `w`. */
  ghost predicate DependsBy(x: Fixed, c: Conds, i: nat, s: Symbol, env: Env, w: Tristate) {
    && i < |x.sym| && i < |c.dep| && x.sym[i] == Some(s) && c.dep[i].Some? && w == Value(c.dep[i].value, env)
  }

  ghost predicate EntryDemands(x: Fixed, c: Conds, i: nat, s: Symbol, env: Env, w: Tristate) {
    exists j: nat :: SelectsBy(x, c, i, j, s, env, w)
  }

  /** The entry is below a root of the tree. */
  predicate IsBelow(f: Forest, i: nat) { f.Node? && (i in Ids(f.kids) || IsBelow(f.rest, i)) }

  /** The entry has nothing below it. */
  predicate IsLeaf(f: Forest, i: nat) {
    f.Node? && ((f.id == i && f.kids.Nil?) || IsLeaf(f.kids, i) || IsLeaf(f.rest, i))
  }

  /** An entry of the tree demands `w` of `s`. */
  ghost predicate Demands(x: Fixed, optional: set<Symbol>, f: Forest, c: Conds, s: Symbol, env: Env, i: nat, w: Tristate) {
    || (IsBelow(f, i) && EntryDemands(x, c, i, s, env, w))
    || (i in Ids(f) && PromptsBy(x, optional, c, i, s, env, w))
  }

  lemma {:induction false} SelectedByIs(x: Fixed, c: Conds, i: nat, n: nat, s: Symbol, env: Env)
    requires i < |x.sym| && i < |c.props| && x.sym[i].Some? && n <= |c.props[i]|
    ensures var v := SelectedBy(x.sym[i].value, c.props[i][..n], s, env);
      && (forall j: nat, w: Tristate :: j < n && SelectsBy(x, c, i, j, s, env, w) ==> w <= v)
      && (v != NO ==> exists j: nat :: j < n && SelectsBy(x, c, i, j, s, env, v))
  {
    if n > 0 {
      SelectedByIs(x, c, i, n - 1, s, env);
      assert c.props[i][..n][..n - 1] == c.props[i][..n - 1];
      var v, u := SelectedBy(x.sym[i].value, c.props[i][..n], s, env), SelectedBy(x.sym[i].value, c.props[i][..n - 1], s, env);
      if v != NO && v == u {
        var j: nat :| j < n - 1 && SelectsBy(x, c, i, j, s, env, u);
        assert SelectsBy(x, c, i, j, s, env, v);
      } else if v != NO {
        assert SelectsBy(x, c, i, n - 1, s, env, v);
      }
    }
  }

  lemma EntrySelectsIs(x: Fixed, c: Conds, i: nat, s: Symbol, env: Env)
    ensures var v := EntrySelects(x, c, i, s, env);
      && (forall w: Tristate :: EntryDemands(x, c, i, s, env, w) ==> w <= v)
      && (v != NO ==> EntryDemands(x, c, i, s, env, v))
  {
    if i < |x.sym| && i < |c.props| && x.sym[i].Some? {
      assert c.props[i][..|c.props[i]|] == c.props[i];
      SelectedByIs(x, c, i, |c.props[i]|, s, env);
    }
  }

  lemma {:induction false} ChainSelectsIs(x: Fixed, c: Conds, f: Forest, s: Symbol, env: Env)
    ensures var v := ChainSelects(x, c, f, s, env);
      && (forall i: nat, w: Tristate :: i in Roots(f) && EntryDemands(x, c, i, s, env, w) ==> w <= v)
      && (v != NO ==> exists i: nat :: i in Roots(f) && EntryDemands(x, c, i, s, env, v))
  {
    if f.Node? {
      EntrySelectsIs(x, c, f.id, s, env);
      ChainSelectsIs(x, c, f.rest, s, env);
    }
  }

  lemma PromptSelectsIs(x: Fixed, optional: set<Symbol>, c: Conds, i: nat, s: Symbol, env: Env)
    requires Sized(x, c, |x.sym|)
    ensures var v := PromptSelects(x, optional, c, i, s, env);
      && (forall w: Tristate :: PromptsBy(x, optional, c, i, s, env, w) ==> w <= v)
      && (v != NO ==> PromptsBy(x, optional, c, i, s, env, v))
  {}

  lemma {:induction false} IdsAreRootsAndBelow(f: Forest, i: nat)
    ensures i in Ids(f) <==> i in Roots(f) || IsBelow(f, i)
  {
    if f.Node? { IdsAreRootsAndBelow(f.rest, i); }
  }

  /** The demand on `s` is the greatest of these, and no without any. */
  lemma {:induction false} DemandIs(x: Fixed, optional: set<Symbol>, f: Forest, c: Conds, s: Symbol, env: Env)
    requires Sized(x, c, |x.sym|)
    ensures var v := Demand(x, optional, f, c, s, env);
      && (forall i: nat, w: Tristate :: Demands(x, optional, f, c, s, env, i, w) ==> w <= v)
      && (v != NO ==> exists i: nat :: Demands(x, optional, f, c, s, env, i, v))
  {
    if f.Node? {
      var v := Demand(x, optional, f, c, s, env);
      ChainSelectsIs(x, c, f.kids, s, env);
      DemandIs(x, optional, f.kids, c, s, env);
      DemandIs(x, optional, f.rest, c, s, env);
      PromptSelectsIs(x, optional, c, f.id, s, env);
      forall i: nat, w: Tristate | Demands(x, optional, f, c, s, env, i, w) ensures w <= v {
        IdsAreRootsAndBelow(f.kids, i);
        DemandFrom(x, optional, f, c, s, env, i, w);
      }
      if v != NO { DemandMet(x, optional, f, c, s, env); }
    }
  }

  /** Where a demand of the tree comes from. */
  lemma DemandFrom(x: Fixed, optional: set<Symbol>, f: Forest, c: Conds, s: Symbol, env: Env, i: nat, w: Tristate)
    requires f.Node? && Demands(x, optional, f, c, s, env, i, w) && (i in Ids(f.kids) <==> i in Roots(f.kids) || IsBelow(f.kids, i))
    ensures || (i in Roots(f.kids) && EntryDemands(x, c, i, s, env, w))
            || Demands(x, optional, f.kids, c, s, env, i, w) || Demands(x, optional, f.rest, c, s, env, i, w)
            || (i == f.id && PromptsBy(x, optional, c, i, s, env, w))
  {}

  lemma DemandMet(x: Fixed, optional: set<Symbol>, f: Forest, c: Conds, s: Symbol, env: Env)
    requires Sized(x, c, |x.sym|) && f.Node? && Demand(x, optional, f, c, s, env) != NO
    requires var v := ChainSelects(x, c, f.kids, s, env);
      v != NO ==> exists i: nat :: i in Roots(f.kids) && EntryDemands(x, c, i, s, env, v)
    requires var v := Demand(x, optional, f.kids, c, s, env);
      v != NO ==> exists i: nat :: Demands(x, optional, f.kids, c, s, env, i, v)
    requires var v := Demand(x, optional, f.rest, c, s, env);
      v != NO ==> exists i: nat :: Demands(x, optional, f.rest, c, s, env, i, v)
    requires var v := PromptSelects(x, optional, c, f.id, s, env);
      v != NO ==> PromptsBy(x, optional, c, f.id, s, env, v)
    ensures exists i: nat :: Demands(x, optional, f, c, s, env, i, Demand(x, optional, f, c, s, env))
  {
    var v := Demand(x, optional, f, c, s, env);
    if v == PromptSelects(x, optional, c, f.id, s, env) {
      assert Demands(x, optional, f, c, s, env, f.id, v);
    } else if v == Demand(x, optional, f.rest, c, s, env) {
      var i: nat :| Demands(x, optional, f.rest, c, s, env, i, v);
      assert Demands(x, optional, f, c, s, env, i, v);
    } else if v == Demand(x, optional, f.kids, c, s, env) {
      var i: nat :| Demands(x, optional, f.kids, c, s, env, i, v);
      IdsAreRootsAndBelow(f.kids, i);
      assert Demands(x, optional, f, c, s, env, i, v);
    } else {
      var i: nat :| i in Roots(f.kids) && EntryDemands(x, c, i, s, env, v);
      assert Demands(x, optional, f, c, s, env, i, v);
    }
  }

  /** The same of `dir_dep`, which takes in the conditions of the entries that had nothing
      below them. */
  lemma {:induction false} LeafDepsIs(x: Fixed, f: Forest, c: Conds, s: Symbol, env: Env)
    ensures var v := LeafDeps(x, f, c, s, env);
      && (forall i: nat, w: Tristate :: IsLeaf(f, i) && DependsBy(x, c, i, s, env, w) ==> w <= v)
      && (v != NO ==> exists i: nat :: IsLeaf(f, i) && DependsBy(x, c, i, s, env, v))
  {
    if f.Node? {
      LeafDepsIs(x, f.kids, c, s, env);
      LeafDepsIs(x, f.rest, c, s, env);
      var v := LeafDeps(x, f, c, s, env);
      if v != NO {
        if v == LeafDeps(x, f.rest, c, s, env) {
          var i: nat :| IsLeaf(f.rest, i) && DependsBy(x, c, i, s, env, v);
          assert IsLeaf(f, i);
        } else if f.kids.Nil? {
          assert IsLeaf(f, f.id) && DependsBy(x, c, f.id, s, env, v);
        } else {
          var i: nat :| IsLeaf(f.kids, i) && DependsBy(x, c, i, s, env, v);
          assert IsLeaf(f, i);
        }
      }
    }
  }
}
