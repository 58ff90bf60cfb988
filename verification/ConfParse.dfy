/** The end of conf_parse: the menu tree is finalized, then every symbol is searched for
    recursive dependencies (zconf.tab.c). */
module ConfParse {
  import opened Tristates
  import opened Exprs
  import opened Forests
  import opened SymbolGraph
  import opened SymbolValue
  import opened CheckDeps
  import opened MenuDeps
  import opened MenuTree
  import opened MenuConds
  import opened MenuSelects
  import opened MenuFinalize

  /** The properties that belong to the entries of `s`, of the first `n` entries. */
  function PropsOf(x: Fixed, c: Conds, s: Symbol, n: nat): seq<Property>
    requires n <= |x.sym| && n <= |c.props|
  {
    if n == 0 then []
    else PropsOf(x, c, s, n - 1) + if x.sym[n - 1] == Some(s) then c.props[n - 1] else []
  }

  function Get(m: map<Symbol, Expr>, s: Symbol): Option<Expr> { if s in m then Some(m[s]) else None }

  /** The symbols as their entries have declared them; `base` holds what belongs to no
      entry: names, flags, defaults of generated symbols. */
  function GraphOf(base: Graph, x: Fixed, c: Conds, sel: Sel): Graph
    requires Sized(x, c, |x.sym|)
  {
    map s | s in base ::
      base[s].(props := PropsOf(x, c, s, |x.sym|) + base[s].props, dirDep := Get(sel.dir, s), revDep := Get(sel.rev, s))
  }

  lemma {:induction false} PropsOfHolds(x: Fixed, c: Conds, s: Symbol, n: nat, i: nat, p: Property)
    requires i < n <= |x.sym| && n <= |c.props| && x.sym[i] == Some(s) && p in c.props[i]
    ensures p in PropsOf(x, c, s, n)
  {
    if i < n - 1 { PropsOfHolds(x, c, s, n - 1, i, p); }
  }

  lemma {:induction false} PropsOfOnly(x: Fixed, c: Conds, s: Symbol, n: nat, p: Property)
    requires n <= |x.sym| && n <= |c.props| && p in PropsOf(x, c, s, n)
    ensures exists i :: 0 <= i < n && x.sym[i] == Some(s) && p in c.props[i]
  {
    if p in PropsOf(x, c, s, n - 1) { PropsOfOnly(x, c, s, n - 1, p); }
  }

  /** menu_add_entry gives every entry of a symbol a property without a condition. */
  predicate IsMarked(ps: seq<Property>) {
    exists j :: 0 <= j < |ps| && ps[j].kind.SymbolProp? && ps[j].visible.None?
  }

  /** The root is no symbol's entry; every other entry of a symbol is in the tree below it. */
  ghost predicate IsMenu(x: Fixed, f: Forest, c: Conds) {
    && f.Node? && f.rest.Nil? && f.id < |x.sym| && Sized(x, c, |x.sym|) && x.sym[f.id].None?
    && (forall i :: 0 <= i < |x.sym| && x.sym[i].Some? ==> i in Ids(f) && IsMarked(c.props[i]))
    && (forall i :: 0 <= i < |x.sym| ==> PromptsAreChecked(c.props[i]))
  }

  /** Everything below the roots took in a condition from above. */
  lemma {:induction false} SpreadBelow(x: Fixed, f: Forest, a: Conds, b: Conds, i: nat) returns (parentdep: Option<Expr>)
    requires Sized(x, b, |x.sym|) && SpreadAll(x, f, a, b) && i in Ids(f) && i !in Roots(f)
    ensures Spread(x, i, parentdep, a, b)
  {
    if i in Roots(f.kids) {
      parentdep := ParentDep(x, b, f.id);
    } else if i in Ids(f.kids) {
      parentdep := SpreadBelow(x, f.kids, a, b, i);
    } else {
      parentdep := SpreadBelow(x, f.rest, a, b, i);
    }
  }

  /** What a marked entry depends on is among the conditions of its properties. */
  lemma EntryIsShown(x: Fixed, i: nat, parentdep: Option<Expr>, a: Conds, b: Conds, t: Symbol)
    requires Spread(x, i, parentdep, a, b) && IsMarked(a.props[i])
    requires t in OptSymbols(b.dep[i]) && t.Config?
    ensures exists p :: p in b.props[i] && t in PropDeps(p)
  {
    var j :| 0 <= j < |a.props[i]| && a.props[i][j].kind.SymbolProp? && a.props[i][j].visible.None?;
    assert SpreadTo(b.dep[i], IsExact(x, i), a.props[i][j], b.props[i][j]);
    ShowsItsEntry(parentdep, a.dep[i], IsExact(x, i), t);
    assert b.props[i][j] in b.props[i];
  }

  /** Whatever a property of one of its entries depends on, a symbol depends on. */
  lemma PropIsSearched(base: Graph, x: Fixed, b: Conds, sel: Sel, s: Symbol, i: nat, p: Property)
    requires Sized(x, b, |x.sym|) && s in base && i < |x.sym| && x.sym[i] == Some(s) && p in b.props[i]
    ensures PropDeps(p) <= Deps(GraphOf(base, x, b, sel)[s])
  {
    var d := GraphOf(base, x, b, sel)[s];
    PropsOfHolds(x, b, s, |x.sym|, i, p);
    assert p in d.props;
    var j :| 0 <= j < |d.props| && d.props[j] == p;
    PropsDepsAt(d.props, j);
  }

  /** A direct dependency is among the dependencies that are searched. */
  lemma DirDepIsSearched(base: Graph, x: Fixed, f: Forest, a: Conds, b: Conds, sel: Sel, s: Symbol, t: Symbol)
    requires IsMenu(x, f, a) && Sized(x, b, |x.sym|) && SpreadAll(x, f, a, b) && s in base
    requires DirFrom(x, Ids(f), b, map[], sel.dir) && Mentions(sel.dir, s, t) && t.Config?
    ensures t in Deps(GraphOf(base, x, b, sel)[s])
  {
    assert StemsFrom(x, Ids(f), b, s, t);
    var i :| i in Ids(f) && i < |x.sym| && i < |b.dep| && x.sym[i] == Some(s) && t in OptSymbols(b.dep[i]);
    var parentdep := SpreadBelow(x, f, a, b, i);
    EntryIsShown(x, i, parentdep, a, b, t);
    var p :| p in b.props[i] && t in PropDeps(p);
    PropIsSearched(base, x, b, sel, s, i, p);
  }

  /** Prompts stay on properties that are visited. */
  lemma PromptsStayChecked(base: Graph, x: Fixed, f: Forest, a: Conds, b: Conds, sel: Sel, s: Symbol)
    requires IsMenu(x, f, a) && Sized(x, b, |x.sym|) && SpreadAll(x, f, a, b) && s in base && PromptsAreChecked(base[s].props)
    ensures PromptsAreChecked(GraphOf(base, x, b, sel)[s].props)
  {
    forall p | p in PropsOf(x, b, s, |x.sym|) && p.hasText ensures !p.kind.ChoiceProp? && !p.kind.SelectProp? {
      PropsOfOnly(x, b, s, |x.sym|, p);
      var i :| 0 <= i < |x.sym| && x.sym[i] == Some(s) && p in b.props[i];
      var parentdep := SpreadBelow(x, f, a, b, i);
      var j :| 0 <= j < |b.props[i]| && b.props[i][j] == p;
      assert SpreadTo(b.dep[i], IsExact(x, i), a.props[i][j], b.props[i][j]);
      assert a.props[i][j] in a.props[i];
    }
  }

  /** On a finalized tree, an order of the search is one in which every evaluation is
      well-founded. */
  lemma FinalizedIsRanked(base: Graph, x: Fixed, optional: set<Symbol>, f: Forest, a: Conds, b: Conds, sel: Sel,
                          order: seq<Symbol>, modules: Tristate, user: map<Symbol, SymVal>)
    requires IsMenu(x, f, a) && Sized(x, b, |x.sym|) && SpreadAll(x, f, a, b)
    requires Summed(x, optional, f, b, Sel(map[], map[]), sel)
    requires forall s :: s in base ==> s.Config? && s in order && PromptsAreChecked(base[s].props)
    requires Ordered(DepsOf(GraphOf(base, x, b, sel)), order)
    ensures Ranked(RankedIn(order, GraphOf(base, x, b, sel), modules, user))
  {
    forall s | s in base
      ensures var d := GraphOf(base, x, b, sel)[s]; PromptsAreChecked(d.props) && OptConfigs(d.dirDep) <= Deps(d)
    {
      var d := GraphOf(base, x, b, sel)[s];
      forall t | t in OptConfigs(d.dirDep) ensures t in Deps(d) {
        DirDepIsSearched(base, x, f, a, b, sel, s, t);
      }
      PromptsStayChecked(base, x, f, a, b, sel, s);
    }
    CheckedIsRanked(GraphOf(base, x, b, sel), order, modules, user);
  }

  /** The end of conf_parse, with the symbols of the hash table in the order of the
      search. If it reports nothing, no evaluation is circular, whatever the settings. */
  method FinishParse(m: Menus, root: nat, base: Graph, table: seq<Symbol>, ghost f: Forest)
    returns (g: Graph, reports: seq<seq<Symbol>>, errors: nat, ghost order: seq<Symbol>)
    requires m.Valid() && m.moves == [] && m.log == [] && m.touched == {} && m.Sels() == Sel(map[], map[])
    requires f.Node? && f.id == root && NoDup(f) && Holds(m.links, f, root, -1, -1) && IsMenu(m.fixed, f, m.conds)
    requires forall s :: s in base ==> s.Config? && s in table && PromptsAreChecked(base[s].props)
    modifies m
    ensures m.Valid() && g == GraphOf(base, m.fixed, m.conds, m.Sels())
    ensures reports == [] <==> Acyclic(DepsOf(g))
    ensures forall r :: r in reports ==> IsCycle(DepsOf(g), r)
    ensures reports == [] ==> forall modules, user :: Ranked(RankedIn(order, g, modules, user))
    ensures errors == 0
  {
    ghost var a := m.conds;
    ghost var f' := m.FinalizeAll(root, f);
    g := GraphOf(base, m.fixed, m.conds, Sel(m.revDep, m.dirDep));
    reports, errors, order := CheckAll(g, table);
    if reports == [] {
      forall modules, user ensures Ranked(RankedIn(order, g, modules, user)) {
        FinalizedIsRanked(base, m.fixed, m.optional, f, a, m.conds, m.Sels(), order, modules, user);
      }
    }
  }
}
