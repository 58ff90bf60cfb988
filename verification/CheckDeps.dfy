/** The depth-first search for recursive dependencies (sym_check_deps and its
    helpers in symbol.c, started for every symbol by conf_parse), without choices. */
module CheckDeps {
  import opened Exprs
  import opened SymbolGraph

  class Checker {
    const graph: Graph
    /** What depends on what, and all symbols that can be met. */
    ghost const edges: Relation
    ghost const universe: set<Symbol>
    /** The symbols with the flags SYMBOL_CHECK and SYMBOL_CHECKED. */
    var check: set<Symbol>
    var checked: set<Symbol>
    /** dep_stack, oldest entry first. */
    var stack: seq<Symbol>
    /** One entry per call of sym_check_print_recursive: the symbols it lists. */
    var reports: seq<seq<Symbol>>
    /** Symbols in the order in which their search ended. */
    ghost var finished: seq<Symbol>

    constructor (g: Graph, ghost symbols: set<Symbol>)
      requires forall s, t :: Edge(DepsOf(g), s, t) ==> t in symbols
      ensures graph == g && edges == DepsOf(g) && universe == symbols && Valid()
      ensures stack == [] && check == {} && reports == []
    {
      graph, edges, universe := g, DepsOf(g), symbols;
      check, checked, stack, reports := {}, {}, [], [];
      finished := [];
    }

    /** While nothing was reported, finished symbols come after their dependencies. */
    ghost predicate SearchIsOrdered()
      reads this
    {
      reports == [] ==>
        (forall s :: s in checked - check ==> s in finished) && Ordered(edges, finished)
    }

    ghost predicate Closed() { edges == DepsOf(graph) && forall s, t :: Edge(edges, s, t) ==> t in universe }

    /** All but the agreement of the flags with the stack. */
    ghost predicate Base()
      reads this
    {
      && Closed()
      && check <= checked <= universe
      && IsPath(edges, stack)
      && (forall r :: r in reports ==> IsCycle(edges, r))
      && SearchIsOrdered()
    }

    ghost predicate Valid()
      reads this
    {
      Base() && forall s :: s in check <==> s in stack
    }

    /** Only symbols of `todo` are still unchecked. */
    ghost predicate Left(todo: set<Symbol>)
      reads this
    {
      forall s :: s in universe ==> s in checked || s in todo
    }

    /** The newest entry of the stack. */
    ghost predicate OnTop(top: Symbol)
      reads this
    {
      stack != [] && stack[|stack| - 1] == top && top in edges
    }

    /** The search of `deps` ended and was not cut short by a report. */
    ghost predicate Done(deps: set<Symbol>)
      reads this
    {
      reports == [] ==> deps <= checked - check
    }

    /** Flags and reports are only ever added, apart from SYMBOL_CHECK. */
    twostate predicate Grows()
      reads this
    {
      stack == old(stack) && check == old(check) && old(checked) <= checked && |old(reports)| <= |reports|
    }

    /** A result names a symbol on the stack and follows a report. */
    ghost predicate IsHit(r: Option<Symbol>)
      reads this
    {
      r.Some? ==> r.value in check && reports != []
    }

    /** sym_check_print_recursive: the stack from the newest entry for `last` on. */
    method PrintRecursive(last: Symbol)
      requires Valid() && last in check && Edge(edges, stack[|stack| - 1], last)
      modifies this`reports
      ensures Valid() && |reports| == |old(reports)| + 1 && old(reports) <= reports
      ensures exists i :: 0 <= i < |stack| && stack[i] == last && reports[|old(reports)|] == stack[i..]
    {
      var i := |stack| - 1;
      while stack[i] != last
        invariant 0 <= i < |stack|
        invariant last in stack[..i + 1]
        decreases i
      {
        assert stack[..i + 1] == stack[..i] + [stack[i]];
        i := i - 1;
      }
      ClosedPath(edges, stack, i);
      reports := reports + [stack[i..]];
    }

    /** sym_check_deps. */
    method CheckSymbol(s: Symbol, ghost todo: set<Symbol>) returns (r: Option<Symbol>)
      requires Valid() && Left(todo) && s in universe && (stack != [] ==> Edge(edges, stack[|stack| - 1], s))
      modifies this
      ensures Valid() && Grows() && Left(todo) && Done({s}) && IsHit(r)
      decreases todo, 0
    {
      if s in check {
        PrintRecursive(s);
        r := Some(s);
      } else if s in checked {
        r := None;
      } else {
        check, checked := check + {s}, checked + {s};
        assert s in todo && s !in todo - {s};
        r := CheckSymDeps(s, todo - {s});
        check := check - {s};
        assert check == old(check);
        if reports == [] {
          OrderedSnoc(edges, finished, s);
          finished := finished + [s];
        }
        if r == Some(s) { r := None; }
      }
    }

    /** sym_check_sym_deps. */
    method CheckSymDeps(s: Symbol, ghost todo: set<Symbol>) returns (r: Option<Symbol>)
      requires Base() && Left(todo) && s in universe && (stack != [] ==> Edge(edges, stack[|stack| - 1], s))
      requires s !in stack && forall x :: x in check <==> x in stack || x == s
      modifies this
      ensures Base() && Grows() && Left(todo) && IsHit(r)
      ensures s in edges ==> Done(edges[s])
      decreases todo, 5
    {
      r := None;
      if s in graph {
        PathSnoc(edges, stack, s);
        stack := stack + [s];
        r := CheckDecl(graph[s], s, todo);
        stack := stack[..|stack| - 1];
      }
    }

    /** What it does while the symbol is on the stack. */
    method CheckDecl(d: Decl, ghost top: Symbol, ghost todo: set<Symbol>) returns (r: Option<Symbol>)
      requires Valid() && Left(todo) && OnTop(top) && Deps(d) <= edges[top]
      modifies this
      ensures Valid() && Grows() && Left(todo) && IsHit(r) && Done(Deps(d))
      decreases todo, 4
    {
      r := CheckOpt(d.revDep, top, todo);
      if r.None? {
        r := CheckProps(d, top, todo);
      }
    }

    /** The loop of sym_check_sym_deps over the properties. */
    method CheckProps(d: Decl, ghost top: Symbol, ghost todo: set<Symbol>) returns (r: Option<Symbol>)
      requires Valid() && Left(todo) && OnTop(top) && PropsDeps(d.props) <= edges[top]
      modifies this
      ensures Valid() && Grows() && Left(todo) && IsHit(r) && Done(PropsDeps(d.props))
      decreases todo, 3
    {
      r := None;
      var i := 0;
      while r.None? && i < |d.props|
        invariant i <= |d.props|
        invariant Valid() && Grows() && Left(todo) && IsHit(r)
        invariant r.None? ==> Done(PropsDeps(d.props[..i]))
      {
        PropsDepsAt(d.props, i);
        var p := d.props[i];
        i := i + 1;
        if !p.kind.ChoiceProp? && !p.kind.SelectProp? {
          assert PropDeps(p) <= edges[top];
          r := CheckOpt(p.visible, top, todo);
          if r.None? && p.kind.DefaultProp? {
            r := CheckOpt(p.expr, top, todo);
          }
        }
      }
      assert d.props[..|d.props|] == d.props;
    }

    /** sym_check_expr_deps: a missing expression is checked at once. */
    method CheckOpt(e: Option<Expr>, ghost top: Symbol, ghost todo: set<Symbol>) returns (r: Option<Symbol>)
      requires Valid() && Left(todo) && OnTop(top) && OptSymbols(e) <= edges[top]
      modifies this
      ensures Valid() && Grows() && Left(todo) && IsHit(r) && Done(OptSymbols(e))
      decreases todo, 2
    {
      r := None;
      if e.Some? { r := CheckExpr(e.value, top, todo); }
    }

    method CheckExpr(e: Expr, ghost top: Symbol, ghost todo: set<Symbol>) returns (r: Option<Symbol>)
      requires Valid() && Left(todo) && OnTop(top) && Symbols(e) <= edges[top]
      modifies this
      ensures Valid() && Grows() && Left(todo) && IsHit(r) && Done(Symbols(e))
      decreases todo, 1, e
    {
      match e {
        case Bin(_, a, b) =>
          assert Symbols(a) <= Symbols(e) && Symbols(b) <= Symbols(e);
          r := CheckExpr(a, top, todo);
          if r.None? {
            r := CheckExpr(b, top, todo);
          }
        case Not(a) =>
          r := CheckExpr(a, top, todo);
        case Cmp(_, a, b) =>
          assert a in Symbols(e) && b in Symbols(e);
          assert Edge(edges, top, a) && Edge(edges, top, b);
          r := CheckSymbol(a, todo);
          if r.None? {
            r := CheckSymbol(b, todo);
          }
        case Sym(a) =>
          assert a in Symbols(e);
          assert Edge(edges, top, a);
          r := CheckSymbol(a, todo);
      }
    }
  }

  /** The loop of conf_parse over all symbols: the search, the reports, and the
      number of calls whose result counts as an error. */
  method CheckAll(graph: Graph, table: seq<Symbol>) returns (reports: seq<seq<Symbol>>, errors: nat, ghost order: seq<Symbol>)
    requires forall s :: s in graph ==> s in table
    ensures forall r :: r in reports ==> IsCycle(DepsOf(graph), r)
    ensures reports == [] <==> Acyclic(DepsOf(graph))
    ensures reports == [] ==> Ordered(DepsOf(graph), order) && forall s :: s in graph ==> s in order
    ensures errors == 0
  {
    ghost var universe := (set s | s in table) + AllDeps(graph);
    AllDepsCovers(graph);
    var c := new Checker(graph, universe);
    errors := 0;
    var i := 0;
    while i < |table|
      invariant i <= |table| && c.edges == DepsOf(graph) && c.universe == universe
      invariant c.Valid() && c.stack == [] && errors == 0
      invariant forall j :: 0 <= j < i ==> c.Done({table[j]})
    {
      var r := c.CheckSymbol(table[i], universe);
      errors := errors + if r.Some? then 1 else 0;
      i := i + 1;
    }
    reports, order := c.reports, c.finished;
    if reports == [] {
      OrderedIsAcyclic(DepsOf(graph), order);
    } else {
      assert IsCycle(DepsOf(graph), reports[0]);
    }
  }

  ghost function AllDeps(g: Graph): set<Symbol> {
    set s, t | s in g && t in Deps(g[s]) :: t
  }

  lemma AllDepsCovers(g: Graph)
    ensures forall s, t :: Edge(DepsOf(g), s, t) ==> t in AllDeps(g)
  {}
}
