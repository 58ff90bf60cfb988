/** What menu_finalize adds to `rev_dep` and `dir_dep` over a whole tree (menu.c): every
    select, every prompt of a symbol that is not optional, every entry that had no
    children, under their final conditions. */
module MenuSelects {
  import opened Tristates
  import opened Exprs
  import opened Forests
  import opened SymbolGraph
  import opened SymbolValue
  import opened MenuTree
  import opened MenuConds

  /** `rev_dep.expr` and `dir_dep.expr` of the symbols that have one. */
  datatype Sel = Sel(rev: map<Symbol, Expr>, dir: map<Symbol, Expr>)

  /** How far the entry selects `s`. */
  function EntrySelects(x: Fixed, c: Conds, i: nat, s: Symbol, env: Env): Tristate {
    if i < |x.sym| && i < |c.props| && x.sym[i].Some? then SelectedBy(x.sym[i].value, c.props[i], s, env) else NO
  }

  predicate SelectedByPrompt(x: Fixed, optional: set<Symbol>, i: nat, s: Symbol)
    requires i < |x.sym| && i < |x.prompt|
  {
    x.sym[i] == Some(s) && s !in optional && x.prompt[i].Some?
  }

  /** How far the prompt of the entry selects its own symbol. */
  function PromptSelects(x: Fixed, optional: set<Symbol>, c: Conds, i: nat, s: Symbol, env: Env): Tristate
    requires Sized(x, c, |x.sym|)
  {
    if i < |x.sym| && SelectedByPrompt(x, optional, i, s) then TriAnd(OptValue(PromptCond(x, c, i), env), env.tri(SymMod)) else NO
  }

  /** The condition of an entry without children counts for its symbol. */
  function LeafDep(x: Fixed, c: Conds, i: nat, s: Symbol, env: Env): Tristate {
    if i < |x.sym| && i < |c.dep| && x.sym[i] == Some(s) && c.dep[i].Some? then Value(c.dep[i].value, env) else NO
  }

  /** The entries of one chain. */
  function ChainSelects(x: Fixed, c: Conds, f: Forest, s: Symbol, env: Env): Tristate {
    if f.Nil? then NO else TriOr(EntrySelects(x, c, f.id, s, env), ChainSelects(x, c, f.rest, s, env))
  }

  /** All that is below a chain `k`, with the chain itself. */
  function DemandBelow(x: Fixed, optional: set<Symbol>, k: Forest, c: Conds, s: Symbol, env: Env): Tristate
    requires Sized(x, c, |x.sym|)
    decreases k, 1
  {
    TriOr(ChainSelects(x, c, k, s, env), Demand(x, optional, k, c, s, env))
  }

  /** What finalizing the tree `f`, as it was at first, adds to `rev_dep` of `s`. */
  function Demand(x: Fixed, optional: set<Symbol>, f: Forest, c: Conds, s: Symbol, env: Env): Tristate
    requires Sized(x, c, |x.sym|)
    decreases f, 0
  {
    if f.Nil? then NO
    else
      TriOr(TriOr(DemandBelow(x, optional, f.kids, c, s, env), Demand(x, optional, f.rest, c, s, env)),
            PromptSelects(x, optional, c, f.id, s, env))
  }

  /** And to `dir_dep`. */
  function LeafDeps(x: Fixed, f: Forest, c: Conds, s: Symbol, env: Env): Tristate {
    if f.Nil? then NO
    else
      TriOr(if f.kids.Nil? then LeafDep(x, c, f.id, s, env) else LeafDeps(x, f.kids, c, s, env), LeafDeps(x, f.rest, c, s, env))
  }

  ghost predicate Added(a: Sel, b: Sel, rev: Tristate, dir: Tristate, s: Symbol, env: Env) {
    && SelectValue(b.rev, s, env) == TriOr(SelectValue(a.rev, s, env), rev)
    && SelectValue(b.dir, s, env) == TriOr(SelectValue(a.dir, s, env), dir)
  }

  ghost predicate Mentions(m: map<Symbol, Expr>, s: Symbol, t: Symbol) { s in m && t in Symbols(m[s]) }

  /** An entry for `s` among `ids` has a condition that mentions `t`. */
  ghost predicate StemsFrom(x: Fixed, ids: set<nat>, c: Conds, s: Symbol, t: Symbol) {
    exists i :: i in ids && i < |x.sym| && i < |c.dep| && x.sym[i] == Some(s) && t in OptSymbols(c.dep[i])
  }

  /** All that `dir_dep` came to mention stems from these entries. */
  ghost predicate DirFrom(x: Fixed, ids: set<nat>, c: Conds, a: map<Symbol, Expr>, b: map<Symbol, Expr>) {
    forall s, t :: Mentions(b, s, t) ==> Mentions(a, s, t) || StemsFrom(x, ids, c, s, t)
  }

  lemma DirFromJoin(x: Fixed, f: set<nat>, g: set<nat>, b: Conds, c: Conds,
                    d0: map<Symbol, Expr>, d1: map<Symbol, Expr>, d2: map<Symbol, Expr>)
    requires DirFrom(x, f, b, d0, d1) && DirFrom(x, g, c, d1, d2)
    requires |b.dep| == |c.dep| && forall i :: i in f && i < |b.dep| ==> c.dep[i] == b.dep[i]
    ensures DirFrom(x, f + g, c, d0, d2)
  {
    forall s, t | Mentions(d2, s, t) && !Mentions(d0, s, t) ensures StemsFrom(x, f + g, c, s, t) {
      if Mentions(d1, s, t) { assert StemsFrom(x, f, b, s, t); } else { assert StemsFrom(x, g, c, s, t); }
    }
  }

  /** The tree `f` was finalized. */
  ghost predicate Summed(x: Fixed, optional: set<Symbol>, f: Forest, c: Conds, a: Sel, b: Sel)
    requires Sized(x, c, |x.sym|)
  {
    && (forall s, env :: Added(a, b, Demand(x, optional, f, c, s, env), LeafDeps(x, f, c, s, env), s, env))
    && DirFrom(x, Ids(f), c, a.dir, b.dir)
  }

  /** The same but for the last statement, for its first entry. */
  ghost predicate Gathered(x: Fixed, optional: set<Symbol>, p: nat, k: Forest, t: Forest, c: Conds, a: Sel, b: Sel)
    requires Sized(x, c, |x.sym|)
  {
    && (forall s, env :: Added(a, b, TriOr(DemandBelow(x, optional, k, c, s, env), Demand(x, optional, t, c, s, env)),
                               LeafDeps(x, Node(p, k, t), c, s, env), s, env))
    && DirFrom(x, Ids(Node(p, k, t)), c, a.dir, b.dir)
  }

  lemma AddedJoin(a: Sel, b: Sel, c: Sel, r1: Tristate, d1: Tristate, r2: Tristate, d2: Tristate, s: Symbol, env: Env)
    requires Added(a, b, r1, d1, s, env) && Added(b, c, r2, d2, s, env)
    ensures Added(a, c, TriOr(r1, r2), TriOr(d1, d2), s, env)
  {}

  lemma {:induction false} ChainFrame(x: Fixed, c: Conds, c': Conds, f: Forest, s: Symbol, env: Env)
    requires |c.props| == |c'.props| && forall i :: i in Roots(f) && i < |c.props| ==> c'.props[i] == c.props[i]
    ensures ChainSelects(x, c', f, s, env) == ChainSelects(x, c, f, s, env)
  {
    if f.Node? { ChainFrame(x, c, c', f.rest, s, env); }
  }

  /** Only the conditions of the tree itself matter. */
  lemma {:induction false} DemandFrame(x: Fixed, optional: set<Symbol>, f: Forest, c: Conds, c': Conds, s: Symbol, env: Env)
    requires Sized(x, c, |x.sym|) && Sized(x, c', |x.sym|)
    requires forall i :: i in Ids(f) && i < |x.sym| ==> c'.props[i] == c.props[i]
    ensures Demand(x, optional, f, c', s, env) == Demand(x, optional, f, c, s, env)
  {
    if f.Node? {
      ChainFrame(x, c, c', f.kids, s, env);
      DemandFrame(x, optional, f.kids, c, c', s, env);
      DemandFrame(x, optional, f.rest, c, c', s, env);
      assert PromptSelects(x, optional, c', f.id, s, env) == PromptSelects(x, optional, c, f.id, s, env);
    }
  }

  lemma {:induction false} LeafDepsFrame(x: Fixed, f: Forest, c: Conds, c': Conds, s: Symbol, env: Env)
    requires |c.dep| == |c'.dep| && forall i :: i in Ids(f) && i < |c.dep| ==> c'.dep[i] == c.dep[i]
    ensures LeafDeps(x, f, c', s, env) == LeafDeps(x, f, c, s, env)
  {
    if f.Node? {
      LeafDepsFrame(x, f.kids, c, c', s, env);
      LeafDepsFrame(x, f.rest, c, c', s, env);
    }
  }

  lemma {:induction false} DemandAppend(x: Fixed, optional: set<Symbol>, f: Forest, g: Forest, c: Conds, s: Symbol, env: Env)
    requires Sized(x, c, |x.sym|)
    ensures Demand(x, optional, Append(f, g), c, s, env)
         == TriOr(Demand(x, optional, f, c, s, env), Demand(x, optional, g, c, s, env))
  {
    if f.Node? {
      DemandAppend(x, optional, f.rest, g, c, s, env);
      var below, own := DemandBelow(x, optional, f.kids, c, s, env), PromptSelects(x, optional, c, f.id, s, env);
      var rest, more := Demand(x, optional, f.rest, c, s, env), Demand(x, optional, g, c, s, env);
      assert Demand(x, optional, Append(f, g), c, s, env) == TriOr(TriOr(below, TriOr(rest, more)), own);
    }
  }

  lemma {:induction false} LeafDepsAppend(x: Fixed, f: Forest, g: Forest, c: Conds, s: Symbol, env: Env)
    ensures LeafDeps(x, Append(f, g), c, s, env) == TriOr(LeafDeps(x, f, c, s, env), LeafDeps(x, g, c, s, env))
  {
    if f.Node? { LeafDepsAppend(x, f.rest, g, c, s, env); }
  }

  lemma {:induction false} ChainAppend(x: Fixed, c: Conds, f: Forest, g: Forest, s: Symbol, env: Env)
    ensures ChainSelects(x, c, Append(f, g), s, env) == TriOr(ChainSelects(x, c, f, s, env), ChainSelects(x, c, g, s, env))
  {
    if f.Node? { ChainAppend(x, c, f.rest, g, s, env); }
  }

  /** Two chains finalized one after the other. */
  lemma SummedJoin(x: Fixed, optional: set<Symbol>, f: Forest, g: Forest, b: Conds, c: Conds, s0: Sel, s1: Sel, s2: Sel)
    requires Sized(x, b, |x.sym|) && Sized(x, c, |x.sym|) && Ids(f) !! Ids(g)
    requires Summed(x, optional, f, b, s0, s1) && Summed(x, optional, g, c, s1, s2) && CondsKept(Ids(g) - Roots(g), b, c)
    ensures Summed(x, optional, Append(f, g), c, s0, s2)
  {
    forall s, env
      ensures Added(s0, s2, Demand(x, optional, Append(f, g), c, s, env), LeafDeps(x, Append(f, g), c, s, env), s, env)
    {
      DemandFrame(x, optional, f, b, c, s, env);
      LeafDepsFrame(x, f, b, c, s, env);
      DemandAppend(x, optional, f, g, c, s, env);
      LeafDepsAppend(x, f, g, c, s, env);
      AddedJoin(s0, s1, s2, Demand(x, optional, f, b, s, env), LeafDeps(x, f, b, s, env),
                Demand(x, optional, g, c, s, env), LeafDeps(x, g, c, s, env), s, env);
    }
    DirFromJoin(x, Ids(f), Ids(g), b, c, s0.dir, s1.dir, s2.dir);
    AppendFacts(f, g);
  }

  /** Settled, and all counted. */
  ghost predicate Done(x: Fixed, optional: set<Symbol>, f: Forest, a: Conds, b: Conds, s0: Sel, s1: Sel)
    requires Sized(x, b, |x.sym|)
  {
    Settled(x, f, a, b) && Summed(x, optional, f, b, s0, s1)
  }

  lemma DoneStep(x: Fixed, optional: set<Symbol>, done: Forest, rem: Forest, t: Forest, rest: Forest,
                 a: Conds, b: Conds, c: Conds, s0: Sel, s1: Sel, s2: Sel)
    requires Sized(x, b, |x.sym|) && Sized(x, c, |x.sym|) && Done(x, optional, done, a, b, s0, s1)
    requires rem.Node? && rem.rest == Append(t, rest) && NoDup(Append(done, rem))
    requires Done(x, optional, Node(rem.id, rem.kids, t), b, c, s1, s2)
    ensures var done' := Append(done, Node(rem.id, rem.kids, t));
            Done(x, optional, done', a, c, s0, s2) && Append(done', rest) == Append(done, rem)
  {
    var m := Node(rem.id, rem.kids, t);
    SettledStep(x, done, rem, t, rest, a, b, c);
    assert Append(m, rest) == rem;
    AppendFacts(done, rem);
    AppendFacts(m, rest);
    SummedJoin(x, optional, done, m, b, c, s0, s1, s2);
  }

  /** The selects of a chain were added. */
  ghost predicate Selected(x: Fixed, k: Forest, c: Conds, a: Sel, b: Sel) {
    b.dir == a.dir && forall s, env :: Added(a, b, ChainSelects(x, c, k, s, env), NO, s, env)
  }

  /** The selects of a chain of children were added, then the children finalized. */
  lemma GatheredBelow(x: Fixed, optional: set<Symbol>, p: nat, k: Forest, b: Conds, c: Conds, s0: Sel, s1: Sel, s2: Sel)
    requires Sized(x, b, |x.sym|) && Sized(x, c, |x.sym|) && k.Node? && NoDup(k)
    requires Selected(x, k, b, s0, s1)
    requires Summed(x, optional, k, c, s1, s2) && CondsKept(Ids(k) - Roots(k), b, c)
    ensures Gathered(x, optional, p, k, Nil, c, s0, s2)
  {
    forall s, env
      ensures Added(s0, s2, TriOr(DemandBelow(x, optional, k, c, s, env), Demand(x, optional, Nil, c, s, env)),
                    LeafDeps(x, Node(p, k, Nil), c, s, env), s, env)
    {
      ChainFrame(x, b, c, k, s, env);
      AddedJoin(s0, s1, s2, ChainSelects(x, b, k, s, env), NO,
                Demand(x, optional, k, c, s, env), LeafDeps(x, k, c, s, env), s, env);
    }
  }

  /** An entry without children, and the siblings `t` it took below it. */
  lemma GatheredBeside(x: Fixed, optional: set<Symbol>, p: nat, t: Forest, c: Conds, s0: Sel, s1: Sel, s2: Sel)
    requires Sized(x, c, |x.sym|) && Summed(x, optional, t, c, s0, s1)
    requires DirFrom(x, {p}, c, s1.dir, s2.dir) && forall s, env :: Added(s1, s2, NO, LeafDep(x, c, p, s, env), s, env)
    ensures Gathered(x, optional, p, Nil, t, c, s0, s2)
  {
    DirFromJoin(x, Ids(t), {p}, c, c, s0.dir, s1.dir, s2.dir);
    forall s, env
      ensures Added(s0, s2, TriOr(DemandBelow(x, optional, Nil, c, s, env), Demand(x, optional, t, c, s, env)),
                    LeafDeps(x, Node(p, Nil, t), c, s, env), s, env)
    {
      assert Added(s0, s1, Demand(x, optional, t, c, s, env), LeafDeps(x, t, c, s, env), s, env);
      assert Added(s1, s2, NO, LeafDep(x, c, p, s, env), s, env);
    }
  }

  /** The last statement. */
  lemma SummedThrough(x: Fixed, optional: set<Symbol>, p: nat, k: Forest, t: Forest, c: Conds, s0: Sel, s1: Sel, s2: Sel)
    requires Sized(x, c, |x.sym|) && Gathered(x, optional, p, k, t, c, s0, s1)
    requires s2.dir == s1.dir && forall s, env :: Added(s1, s2, PromptSelects(x, optional, c, p, s, env), NO, s, env)
    ensures Summed(x, optional, Node(p, k, t), c, s0, s2)
  {
    var f := Node(p, k, t);
    forall s, env ensures Added(s0, s2, Demand(x, optional, f, c, s, env), LeafDeps(x, f, c, s, env), s, env) {
      assert Added(s0, s1, TriOr(DemandBelow(x, optional, k, c, s, env), Demand(x, optional, t, c, s, env)),
                   LeafDeps(x, f, c, s, env), s, env);
      assert Added(s1, s2, PromptSelects(x, optional, c, p, s, env), NO, s, env);
    }
  }

  /** The selects of one more child were added. */
  lemma ChainOneMore(x: Fixed, behind: Forest, m: Forest, b: Conds, c: Conds, s0: Sel, s1: Sel, s2: Sel)
    requires m.Node? && m.rest.Nil? && m.id < |x.sym| && m.id < |c.props| && m.id !in Roots(behind) && CondsKept({m.id}, b, c)
    requires s2.rev == AddSelects(s1.rev, x.sym[m.id], c.props[m.id]) && s2.dir == s1.dir
    requires Selected(x, behind, b, s0, s1)
    ensures Selected(x, Append(behind, m), c, s0, s2)
  {
    forall s, env ensures Added(s0, s2, ChainSelects(x, c, Append(behind, m), s, env), NO, s, env) {
      ChainFrame(x, b, c, behind, s, env);
      ChainAppend(x, c, behind, m, s, env);
      if x.sym[m.id].Some? { AddSelectsValue(s1.rev, x.sym[m.id].value, c.props[m.id], s, env); }
      assert Added(s1, s2, EntrySelects(x, c, m.id, s, env), NO, s, env);
      AddedJoin(s0, s1, s2, ChainSelects(x, b, behind, s, env), NO, EntrySelects(x, c, m.id, s, env), NO, s, env);
    }
  }

  /** The first loop over the children `k`: those behind took in `parentdep`. */
  ghost predicate Spreading(x: Fixed, parentdep: Option<Expr>, k: Forest, behind: Forest, rem: Forest,
                            a: Conds, b: Conds, s0: Sel, s1: Sel) {
    && Append(behind, rem) == k && NoDup(k)
    && SpreadOver(x, Roots(behind), parentdep, a, b)
    && Selected(x, behind, b, s0, s1)
  }

  /** At the end of the loop. */
  lemma SpreadingEnd(x: Fixed, parentdep: Option<Expr>, k: Forest, behind: Forest, a: Conds, b: Conds, s0: Sel, s1: Sel)
    requires Spreading(x, parentdep, k, behind, Nil, a, b, s0, s1)
    ensures SpreadOver(x, Roots(k), parentdep, a, b) && CondsKept(Ids(k), a, b) && Selected(x, k, b, s0, s1)
  {
    AppendNil(behind);
    assert CondsKept(Roots(k), a, b);
  }

  lemma SpreadingStep(x: Fixed, parentdep: Option<Expr>, k: Forest, behind: Forest, rem: Forest,
                      a: Conds, b: Conds, c: Conds, s0: Sel, s1: Sel, s2: Sel)
    requires Spreading(x, parentdep, k, behind, rem, a, b, s0, s1) && rem.Node?
    requires Spread(x, rem.id, parentdep, b, c) && CondsKept({rem.id}, b, c)
    requires rem.id < |x.sym| && rem.id < |c.props|
    requires s2.rev == AddSelects(s1.rev, x.sym[rem.id], c.props[rem.id]) && s2.dir == s1.dir
    ensures Spreading(x, parentdep, k, Append(behind, Single(rem)), rem.rest, a, c, s0, s2)
  {
    AppendFacts(behind, rem);
    AppendSingle(behind, rem);
    RootsAppend(behind, Single(rem));
    assert Roots(Single(rem)) == {rem.id} && rem.id !in Roots(behind);
    SpreadOneMore(x, Roots(behind), rem.id, parentdep, a, b, c);
    ChainOneMore(x, behind, Single(rem), b, c, s0, s1, s2);
  }
}
