/** The declared symbols and what each of them depends on. */
module SymbolGraph {
  import opened Exprs

  datatype PropType =
    | PromptProp | MenuProp | CommentProp | DefaultProp | ChoiceProp
    | SelectProp | RangeProp | EnvProp | SymbolProp

  /** `hasText`: the property carries a prompt; `visible` is its condition and
      `expr` its value. */
  datatype Property = Property(kind: PropType, hasText: bool, visible: Option<Expr>, expr: Option<Expr>)

  datatype Decl = Decl(name: string, props: seq<Property>, dirDep: Option<Expr>, revDep: Option<Expr>, auto: bool)

  /** Symbols without a declaration depend on nothing. */
  type Graph = map<Symbol, Decl>

  /** The symbols that sym_check_sym_deps visits for one property. */
  function PropDeps(p: Property): set<Symbol> {
    if p.kind.ChoiceProp? || p.kind.SelectProp? then {}
    else OptSymbols(p.visible) + (if p.kind.DefaultProp? then OptSymbols(p.expr) else {})
  }

  function PropsDeps(props: seq<Property>): set<Symbol> {
    if props == [] then {} else PropDeps(props[0]) + PropsDeps(props[1..])
  }

  lemma {:induction false} PropsDepsAt(props: seq<Property>, i: nat)
    requires i < |props|
    ensures PropDeps(props[i]) <= PropsDeps(props)
    ensures PropsDeps(props[..i + 1]) == PropsDeps(props[..i]) + PropDeps(props[i])
  {
    if i == 0 {
      assert props[..1][1..] == [];
    } else {
      PropsDepsAt(props[1..], i - 1);
      assert props[..i + 1][1..] == props[1..][..i] && props[..i][1..] == props[1..][..i - 1];
    }
  }

  /** The dependencies that are searched for recursion. */
  function Deps(d: Decl): set<Symbol> { OptSymbols(d.revDep) + PropsDeps(d.props) }

  /** The dependency relation: for each declared symbol, what it depends on. */
  type Relation = map<Symbol, set<Symbol>>

  function DepsOf(g: Graph): Relation { map s | s in g :: Deps(g[s]) }

  predicate Edge(g: Relation, s: Symbol, t: Symbol) { s in g && t in g[s] }

  /** Each symbol of the sequence depends on the next, and the last on the first. */
  ghost predicate IsCycle(g: Relation, c: seq<Symbol>) {
    && c != []
    && (forall i :: 0 <= i < |c| - 1 ==> Edge(g, c[i], c[i + 1]))
    && Edge(g, c[|c| - 1], c[0])
  }

  ghost predicate Acyclic(g: Relation) { !exists c :: IsCycle(g, c) }

  /** Every symbol comes after everything it depends on. */
  ghost predicate Ordered(g: Relation, order: seq<Symbol>) {
    forall i, t :: 0 <= i < |order| && Edge(g, order[i], t) ==> t in order[..i]
  }

  lemma OrderedSnoc(g: Relation, order: seq<Symbol>, s: Symbol)
    requires Ordered(g, order) && forall t :: Edge(g, s, t) ==> t in order
    ensures Ordered(g, order + [s])
  {
    forall i, t | 0 <= i < |order + [s]| && Edge(g, (order + [s])[i], t) ensures t in (order + [s])[..i] {
      if i < |order| {
        assert (order + [s])[..i] == order[..i];
      } else {
        assert (order + [s])[..i] == order;
      }
    }
  }

  /** A chain of dependencies without repetitions. */
  ghost predicate IsPath(g: Relation, p: seq<Symbol>) {
    && (forall i, j :: 0 <= i < j < |p| ==> p[i] != p[j])
    && (forall i :: 0 <= i < |p| - 1 ==> Edge(g, p[i], p[i + 1]))
  }

  lemma PathSnoc(g: Relation, p: seq<Symbol>, s: Symbol)
    requires IsPath(g, p) && s !in p && (p != [] ==> Edge(g, p[|p| - 1], s))
    ensures IsPath(g, p + [s])
  {}

  /** The end of a path from `i` on, closed by a dependency of its last symbol. */
  lemma ClosedPath(g: Relation, p: seq<Symbol>, i: nat)
    requires IsPath(g, p) && i < |p| && Edge(g, p[|p| - 1], p[i])
    ensures IsCycle(g, p[i..])
  {}

  /** Place of a symbol in an order. */
  function Place(order: seq<Symbol>, s: Symbol): nat {
    if order == [] || order[0] == s then 0 else 1 + Place(order[1..], s)
  }

  lemma {:induction false} PlaceIsFirst(order: seq<Symbol>, s: Symbol)
    requires s in order
    ensures Place(order, s) < |order| && order[Place(order, s)] == s && s !in order[..Place(order, s)]
  {
    if order[0] != s {
      PlaceIsFirst(order[1..], s);
      var n := Place(order[1..], s);
      assert order[..n + 1] == [order[0]] + order[1..][..n];
    }
  }

  lemma {:induction false} PlaceBound(order: seq<Symbol>, s: Symbol, n: nat)
    requires n <= |order| && s in order[..n]
    ensures Place(order, s) < n
  {
    if order[0] != s {
      assert order[..n] == [order[0]] + order[1..][..n - 1];
      PlaceBound(order[1..], s, n - 1);
    }
  }

  lemma OrderedPlaces(g: Relation, order: seq<Symbol>, s: Symbol, t: Symbol)
    requires Ordered(g, order) && s in order && Edge(g, s, t)
    ensures t in order && Place(order, t) < Place(order, s)
  {
    PlaceIsFirst(order, s);
    PlaceBound(order, t, Place(order, s));
  }

  /** An order of all declared symbols leaves no room for a cycle. */
  lemma OrderedIsAcyclic(g: Relation, order: seq<Symbol>)
    requires Ordered(g, order) && forall s :: s in g ==> s in order
    ensures Acyclic(g)
  {
    forall c | IsCycle(g, c) ensures false {
      CycleDescends(g, order, c, |c| - 1);
      OrderedPlaces(g, order, c[|c| - 1], c[0]);
    }
  }

  lemma {:induction false} CycleDescends(g: Relation, order: seq<Symbol>, c: seq<Symbol>, i: nat)
    requires Ordered(g, order) && (forall s :: s in g ==> s in order)
    requires IsCycle(g, c) && i < |c|
    ensures Place(order, c[i]) <= Place(order, c[0])
  {
    if i > 0 {
      CycleDescends(g, order, c, i - 1);
      OrderedPlaces(g, order, c[i - 1], c[i]);
    }
  }
}
