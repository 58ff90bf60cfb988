/** The steps of menu_finalize on the pointers of the menu tree, on values: each one
    keeps the document order (menu.c). */
module MenuTree {
  import opened Exprs
  import opened Forests
  import opened SymbolGraph
  import opened Nesting
  import opened Sequences

  /** Pointers where the chain `done` is behind and the chain `rem` is ahead. */
  ghost predicate Between(l: Links, done: Forest, rem: Forest, head: int, menu: int, p: int, owner: int) {
    && Holds(l, done, head, menu, p) && Holds(l, rem, menu, -1, owner)
    && NoDup(done) && NoDup(rem) && Ids(done) !! Ids(rem)
  }

  /** The entry at the head of `rem` was finalized into `m` and given the parent `p`:
      it joins the chain behind. */
  lemma Advance(l: Links, l': Links, done: Forest, rem: Forest, m: Forest, head: int, menu: nat, p: int, owner: int)
    requires Between(l, done, rem, head, menu, p, owner)
    requires Kept(Ids(rem), l, l') && m.Node? && m.id == menu && Pre(m) == Pre(rem)
    requires Holds(l', m, menu, -1, owner)
    ensures menu < |l'.parent| && menu < |l'.next|
    ensures var l2 := l'.(parent := l'.parent[menu := p]);
            Between(l2, Append(done, Single(m)), m.rest, head, l2.next[menu], p, owner)
  {
    var l2 := l'.(parent := l'.parent[menu := p]);
    SamePre(rem, m);
    HoldsFrame(l, l', Ids(rem), done, head, menu, p);
    HoldsFrame(l', l2, {menu}, done, head, menu, p);
    SingleFacts(l', m, -1, owner, p);
    HoldsAppend(l2, done, Single(m), head, l2.next[menu], p);
    SinglePre(m);
    AppendFacts(done, Single(m));
  }

  lemma AdvancePre(done: Forest, rem: Forest, m: Forest)
    requires m.Node? && NoDup(rem) && Pre(m) == Pre(rem)
    ensures Pre(Append(done, Single(m))) == Pre(done) + ([m.id] + Pre(m.kids))
    ensures Pre(Append(done, Single(m))) + Pre(m.rest) == Pre(done) + Pre(rem)
    ensures Ids(Append(done, Single(m))) == Ids(done) + Ids(Single(m)) && Ids(rem) == Ids(Single(m)) + Ids(m.rest)
    ensures Append(done, Single(m)).Node? && LastRoot(Append(done, Single(m))) == m.id
    ensures Count(m.rest) < Count(rem)
  {
    SamePre(rem, m);
    SinglePre(m);
    AppendFacts(done, Single(m));
    LastOfAppend(done, Single(m));
    Concat3(Pre(done), Pre(Single(m)), Pre(m.rest));
  }

  /** One assignment to a parent pointer: below a symbol's entry, or from an entry
      without a prompt to the one above it. */
  datatype Move = Nest(child: nat, to: nat) | Raise(child: nat, from: nat, to: nat)

  ghost function Replay(parent: seq<int>, moves: seq<Move>): (r: seq<int>)
    ensures |r| == |parent|
  {
    if moves == [] then parent
    else
      var last, before := moves[|moves| - 1], Replay(parent, moves[..|moves| - 1]);
      if last.child < |before| then before[last.child := last.to] else before
  }

  lemma ReplaySnoc(parent: seq<int>, moves: seq<Move>, m: Move)
    requires m.child < |parent|
    ensures Replay(parent, moves + [m]) == Replay(parent, moves)[m.child := m.to]
  {
    assert (moves + [m])[..|moves|] == moves;
  }

  /** Whose entry it is, which of its properties is the prompt; which symbols are
      choices (SYMBOL_CHOICE). */
  datatype Fixed = Fixed(sym: seq<Option<Symbol>>, prompt: seq<Option<nat>>, choices: set<Symbol>)

  /** `menu->dep`, and the properties that belong to the entry. */
  datatype Conds = Conds(dep: seq<Option<Expr>>, props: seq<seq<Property>>)

  predicate Sized(x: Fixed, c: Conds, n: nat) {
    && |x.sym| == |x.prompt| == |c.dep| == |c.props| == n
    && forall i :: 0 <= i < n && x.prompt[i].Some? ==> x.prompt[i].value < |c.props[i]|
  }

  /** The condition of the entry's prompt. */
  function PromptCond(x: Fixed, c: Conds, i: nat): Option<Expr>
    requires i < |x.prompt| && i < |c.props| && (x.prompt[i].Some? ==> x.prompt[i].value < |c.props[i]|)
  {
    if x.prompt[i].Some? then c.props[i][x.prompt[i].value].visible else None
  }

  /** The condition that decides whether the entry is nested. */
  function EntryCond(x: Fixed, c: Conds, i: nat): Option<Expr>
    requires i < |x.prompt| && i < |c.props| && i < |c.dep| && (x.prompt[i].Some? ==> x.prompt[i].value < |c.props[i]|)
  {
    if x.prompt[i].Some? then PromptCond(x, c, i) else c.dep[i]
  }

  /** An entry went below a symbol only if it passed the test, which it still does, and was
      raised only past an entry without a prompt. */
  ghost predicate MoveOk(x: Fixed, c: Conds, n: nat, touched: set<nat>, m: Move)
    requires Sized(x, c, n)
  {
    match m
    case Nest(child, to) =>
      && child < n && to < n && child in touched && to in touched
      && x.sym[to].Some? && Qualifies(EntryCond(x, c, child), x.sym[to].value, PromptCond(x, c, to))
      && Justified(EntryCond(x, c, child).value, x.sym[to].value, PromptCond(x, c, to))
    case Raise(child, from, to) => child < n && from < n && to < n && x.prompt[from].None?
  }

  ghost predicate MovesOk(x: Fixed, c: Conds, n: nat, touched: set<nat>, moves: seq<Move>)
    requires Sized(x, c, n)
  {
    moves == []
    || (MoveOk(x, c, n, touched, moves[|moves| - 1]) && MovesOk(x, c, n, touched, moves[..|moves| - 1]))
  }

  /** Each single move was in order. */
  lemma {:induction false} MovesOkAt(x: Fixed, c: Conds, n: nat, touched: set<nat>, moves: seq<Move>, i: nat)
    requires Sized(x, c, n) && MovesOk(x, c, n, touched, moves) && i < |moves|
    ensures MoveOk(x, c, n, touched, moves[i])
  {
    if i < |moves| - 1 { MovesOkAt(x, c, n, touched, moves[..|moves| - 1], i); }
  }

  lemma MoveFrame(x: Fixed, c: Conds, c': Conds, n: nat, touched: set<nat>, touched': set<nat>, m: Move)
    requires Sized(x, c, n) && Sized(x, c', n) && MoveOk(x, c, n, touched, m) && touched <= touched'
    requires forall i :: 0 <= i < n && i in touched ==> c'.dep[i] == c.dep[i] && c'.props[i] == c.props[i]
    ensures MoveOk(x, c', n, touched', m)
  {
    if m.Nest? {
      assert EntryCond(x, c', m.child) == EntryCond(x, c, m.child) && PromptCond(x, c', m.to) == PromptCond(x, c, m.to);
    }
  }

  /** What an entry not named in any move holds does not matter. */
  lemma {:induction false} MovesFrame(x: Fixed, c: Conds, c': Conds, n: nat, touched: set<nat>, touched': set<nat>,
                                      moves: seq<Move>)
    requires Sized(x, c, n) && Sized(x, c', n) && MovesOk(x, c, n, touched, moves) && touched <= touched'
    requires forall i :: 0 <= i < n && i in touched ==> c'.dep[i] == c.dep[i] && c'.props[i] == c.props[i]
    ensures MovesOk(x, c', n, touched', moves)
  {
    if moves != [] {
      MoveFrame(x, c, c', n, touched, touched', moves[|moves| - 1]);
      MovesFrame(x, c, c', n, touched, touched', moves[..|moves| - 1]);
    }
  }

  lemma MovesSnoc(x: Fixed, c: Conds, n: nat, touched: set<nat>, moves: seq<Move>, m: Move)
    requires Sized(x, c, n) && MovesOk(x, c, n, touched, moves) && MoveOk(x, c, n, touched, m)
    ensures MovesOk(x, c, n, touched, moves + [m])
  {
    assert (moves + [m])[..|moves|] == moves;
  }

  /** The pointers fit the entries, and the parents come from `origin` by orderly moves. */
  ghost predicate Orderly(x: Fixed, l: Links, c: Conds, n: nat, touched: set<nat>, origin: seq<int>, moves: seq<Move>) {
    && |l.next| == |l.list| == |l.parent| == n && Sized(x, c, n)
    && l.parent == Replay(origin, moves) && MovesOk(x, c, n, touched, moves)
  }

  lemma MoveIsOrderly(x: Fixed, l: Links, c: Conds, n: nat, touched: set<nat>, origin: seq<int>, moves: seq<Move>, m: Move)
    requires Orderly(x, l, c, n, touched, origin, moves) && m.child < n && MoveOk(x, c, n, touched, m)
    ensures Orderly(x, l.(parent := l.parent[m.child := m.to]), c, n, touched, origin, moves + [m])
  {
    ReplaySnoc(origin, moves, m);
    MovesSnoc(x, c, n, touched, moves, m);
  }

  /** The conditions of all other entries stay. */
  ghost predicate CondsKept(ids: set<nat>, a: Conds, b: Conds) {
    && |a.dep| == |b.dep| && |a.props| == |b.props|
    && (forall i :: 0 <= i < |a.dep| && i !in ids ==> a.dep[i] == b.dep[i])
    && (forall i :: 0 <= i < |a.props| && i !in ids ==> a.props[i] == b.props[i])
  }

  /** Closing the chain of nested entries and hanging it below `p`. */
  lemma NestChain(l: Links, done: Forest, rem: Forest, menu: int, p: nat, owner: int)
    requires p < |l.next| && p < |l.list| && p < |l.parent| && l.parent[p] == owner
    requires Between(l, done, rem, l.next[p], menu, p, owner) && done.Node?
    requires p !in Ids(done) && p !in Ids(rem)
    ensures LastRoot(done) < |l.next| && l.next[LastRoot(done)] == menu && LastRoot(done) != p && LastRoot(done) in Ids(done)
    ensures var l' := l.(list := l.list[p := l.next[p]], next := l.next[p := menu][LastRoot(done) := -1]);
            Holds(l', Node(p, done, rem), p, -1, owner)
  {
    var last := LastRoot(done);
    LastRootFacts(done);
    LinkedCut(l.next, l.list, done, l.next[p], menu, -1);
    var list', next' := l.list[p := l.next[p]], l.next[p := menu][last := -1];
    LinkedFrame(l.next[last := -1], l.list, next', list', done, l.next[p], -1);
    LinkedFrame(l.next, l.list, next', list', rem, menu, -1);
  }

  /** Splicing the children of `menu` into its own chain, behind it. */
  lemma RaiseChain(l: Links, m: Forest, p: int)
    requires m.Node? && m.kids.Node? && NoDup(m) && m.id < |l.next| && m.id < |l.list| && m.id < |l.parent|
    requires l.parent[m.id] == p
    requires Holds(l, m.kids, l.list[m.id], -1, p) && Holds(l, m.rest, l.next[m.id], -1, p)
    ensures LastRoot(m.kids) < |l.next| && LastRoot(m.kids) in Ids(m.kids)
    ensures var l' := l.(next := l.next[LastRoot(m.kids) := l.next[m.id]][m.id := l.list[m.id]], list := l.list[m.id := -1]);
            Holds(l', Node(m.id, Nil, Append(m.kids, m.rest)), m.id, -1, p)
  {
    var k, r, last := m.kids, m.rest, LastRoot(m.kids);
    LastRootFacts(k);
    LinkedCut(l.next, l.list, k, l.list[m.id], -1, l.next[m.id]);
    var next', list' := l.next[last := l.next[m.id]][m.id := l.list[m.id]], l.list[m.id := -1];
    LinkedFrame(l.next[last := l.next[m.id]], l.list, next', list', k, l.list[m.id], l.next[m.id]);
    LinkedFrame(l.next, l.list, next', list', r, l.next[m.id], -1);
    LinkedAppend(next', list', k, r, l.list[m.id], -1);
    OwnedAppend(l.parent, k, r, p);
    assert Head(r, -1) == l.next[m.id];
  }

  /** Handing the chain `kids` of `menu` over to `p`: `done` is handed over. */
  ghost predicate Raising(a: Links, l: Links, done: Forest, rem: Forest, head: int, last: int, p: int, menu: int, kids: Forest) {
    && Between(l, done, rem, head, last, p, menu)
    && Append(done, rem) == kids && Kept(Ids(kids), a, l)
  }

  lemma {:induction false} AppendSingle(done: Forest, rem: Forest)
    requires rem.Node?
    ensures Append(Append(done, Single(rem)), rem.rest) == Append(done, rem)
  {
    if done.Node? { AppendSingle(done.rest, rem); }
  }

  lemma RaiseStep(a: Links, l: Links, done: Forest, rem: Forest, head: int, last: int, p: int, menu: int, kids: Forest)
    requires Raising(a, l, done, rem, head, last, p, menu, kids) && last != -1
    ensures rem.Node? && 0 <= last < |l.parent| && last < |l.next|
    ensures var l2 := l.(parent := l.parent[last := p]);
            Raising(a, l2, Append(done, Single(rem)), rem.rest, head, l2.next[last], p, menu, kids)
    ensures var d := Append(done, Single(rem)); d.Node? && LastRoot(d) == last && Count(rem.rest) < Count(rem)
  {
    Advance(l, l, done, rem, rem, head, last, p, menu);
    AdvancePre(done, rem, rem);
    AppendSingle(done, rem);
    AppendFacts(done, rem);
  }

  lemma {:induction false} AppendNil(f: Forest)
    ensures Append(f, Nil) == f
  {
    if f.Node? { AppendNil(f.rest); }
  }

  lemma RaiseEnd(m: Forest, p: int, a: Links, l: Links, done: Forest, rem: Forest, head: int)
    requires m.Node? && NoDup(m) && Holds(a, m, m.id, -1, p) && done.Node?
    requires l.next == a.next && l.list == a.list && m.id < |a.list| && head == a.list[m.id]
    requires Raising(a, l, done, rem, head, -1, p, m.id, m.kids)
    ensures LastRoot(done) < |l.next| && LastRoot(done) != m.id && m.id < |l.next|
    ensures var l' := l.(next := l.next[LastRoot(done) := l.next[m.id]][m.id := l.list[m.id]], list := l.list[m.id := -1]);
            Holds(l', Node(m.id, Nil, Append(m.kids, m.rest)), m.id, -1, p) && Kept(Ids(m), a, l')
  {
    AppendNil(done);
    HoldsFrame(a, l, Ids(m.kids), m.rest, a.next[m.id], -1, p);
    assert l.parent[m.id] == a.parent[m.id] == p;
    RaiseChain(l, m, p);
  }

  /** The last loop over the children of `p`: `done` was looked at. */
  ghost predicate Lifting(g: Forest, p: nat, a: Links, l: Links, done: Forest, rem: Forest, head: int, menu: int) {
    && Between(l, done, rem, head, menu, p, p)
    && Pre(done) + Pre(rem) == Pre(g) && Ids(done) + Ids(rem) == Ids(g) && Kept(Ids(g), a, l)
  }

  lemma PreRaised(m: Forest)
    requires m.Node?
    ensures Pre(Node(m.id, Nil, Append(m.kids, m.rest))) == Pre(m)
  {
    AppendFacts(m.kids, m.rest);
    Concat3([m.id], Pre(m.kids), Pre(m.rest));
    assert [m.id] + Pre(Nil) == [m.id];
  }

  lemma LiftStep(g: Forest, p: nat, a: Links, b: Links, c: Links, done: Forest, rem: Forest, head: int, menu: nat, m: Forest)
    requires Lifting(g, p, a, b, done, rem, head, menu) && rem.Node? && rem.id == menu && m.Node? && m.id == menu
    requires m == rem || m == Node(menu, Nil, Append(rem.kids, rem.rest))
    requires Kept(Ids(rem), b, c) && Holds(c, m, menu, -1, p)
    ensures menu < |c.next|
    ensures Lifting(g, p, a, c, Append(done, Single(m)), m.rest, head, c.next[menu])
    ensures Count(m.rest) < Count(rem)
  {
    PreRaised(rem);
    Advance(b, c, done, rem, m, head, menu, p, p);
    AdvancePre(done, rem, m);
    assert c.parent[menu := p] == c.parent;
    KeptTrans(Ids(g), Ids(rem), a, b, c);
  }

  lemma LiftEnd(f: Forest, p: nat, owner: int, a: Links, l: Links, done: Forest, head: int)
    requires f.Node? && f.id == p && NoDup(f) && Holds(a, f, p, -1, owner) && p < |a.list| && head == a.list[p]
    requires Lifting(f.kids, p, a, l, done, Nil, head, -1)
    ensures var f' := Node(p, done, f.rest);
            Holds(l, f', p, -1, owner) && Pre(f') == Pre(f) && Pre(done) == Pre(f.kids) && Kept(Ids(f), a, l)
  {
    HoldsFrame(a, l, Ids(f.kids), f.rest, a.next[p], -1, owner);
    assert Pre(done) + Pre(Nil) == Pre(done);
  }

  predicate HasPrompt(x: Fixed, i: nat) { i < |x.prompt| && x.prompt[i].Some? }

  /** Only entries with a prompt have something below them. */
  ghost predicate Flat(x: Fixed, f: Forest) {
    f.Node? ==> (f.kids.Nil? || HasPrompt(x, f.id)) && Flat(x, f.kids) && Flat(x, f.rest)
  }

  /** The same below the chain itself. */
  ghost predicate FlatBelow(x: Fixed, f: Forest) { f.Node? ==> Flat(x, f.kids) && FlatBelow(x, f.rest) }

  lemma {:induction false} FlatAppend(x: Fixed, f: Forest, g: Forest)
    ensures Flat(x, Append(f, g)) <==> Flat(x, f) && Flat(x, g)
    ensures FlatBelow(x, Append(f, g)) <==> FlatBelow(x, f) && FlatBelow(x, g)
    ensures Flat(x, f) ==> FlatBelow(x, f)
  {
    if f.Node? { FlatAppend(x, f.rest, g); }
  }

  /** Entries with a prompt keep what is below them. */
  ghost predicate ListsKept(x: Fixed, a: Links, b: Links) {
    |a.list| == |b.list| && forall i :: 0 <= i < |a.list| && HasPrompt(x, i) ==> b.list[i] == a.list[i]
  }

  /** In the last loop, `done` was looked at. */
  ghost predicate Levelled(x: Fixed, a: Links, l: Links, done: Forest, rem: Forest) {
    Flat(x, done) && FlatBelow(x, rem) && ListsKept(x, a, l)
  }

  /** One more entry was looked at: raised, or left as it is. */
  lemma FlatStep(x: Fixed, a: Links, b: Links, c: Links, done: Forest, rem: Forest, m: Forest, tail: int)
    requires Levelled(x, a, b, done, rem) && rem.Node? && Linked(b.next, b.list, rem, rem.id, tail)
    requires if b.list[rem.id] != -1 && !HasPrompt(x, rem.id)
      then c.list == b.list[rem.id := -1] && m == Node(rem.id, Nil, Append(rem.kids, rem.rest))
      else c.list == b.list && m == rem
    ensures Levelled(x, a, c, Append(done, Single(m)), m.rest)
  {
    FlatAppend(x, rem.kids, rem.rest);
    FlatAppend(x, done, Single(m));
  }

  /** One more entry of a chain was finalized. */
  lemma FlatBelowStep(x: Fixed, done: Forest, m: Forest)
    requires FlatBelow(x, done) && m.Node? && Flat(x, m.kids)
    ensures FlatBelow(x, Append(done, Single(m)))
  {
    FlatAppend(x, done, Single(m));
  }

  /** In terms of the pointers. */
  lemma {:induction false} FlatLinks(x: Fixed, l: Links, f: Forest, head: int, tail: int)
    requires Flat(x, f) && Linked(l.next, l.list, f, head, tail)
    ensures forall i :: i in Ids(f) && i < |l.list| ==> l.list[i] == -1 || HasPrompt(x, i)
  {
    if f.Node? {
      FlatLinks(x, l, f.kids, l.list[f.id], -1);
      FlatLinks(x, l, f.rest, l.next[f.id], tail);
    }
  }

  /** The entry behind the chain that went below `p` does not qualify for it. */
  predicate Stopped(x: Fixed, c: Conds, p: nat, rest: Forest)
    requires Sized(x, c, |x.sym|)
  {
    p < |x.sym| && x.sym[p].Some? && rest.Node? && rest.id < |x.sym| ==>
      !Qualifies(EntryCond(x, c, rest.id), x.sym[p].value, PromptCond(x, c, p))
  }

  /** What menu_finalize changes, apart from conditions of symbols: a snapshot. */
  datatype State = State(links: Links, conds: Conds, log: seq<nat>, touched: set<nat>)

  /** From `a` to `b` the chain `f` headed by `p` became `f'`, in the same document
      order; `logged` was finalized meanwhile, and nothing outside was touched. */
  ghost predicate Finalized(p: nat, f: Forest, owner: int, a: State, b: State, f': Forest, logged: seq<nat>) {
    && f'.Node? && f'.id == p && Holds(b.links, f', p, -1, owner) && Pre(f') == Pre(f)
    && Kept(Ids(f), a.links, b.links)
    && CondsKept(Ids(f) - {p}, a.conds, b.conds)
    && b.log == a.log + logged
    && b.touched <= a.touched + {p} + Ids(f'.kids)
  }

  /** The chain `g` is being worked off: `done` was finalized and belongs to `p`,
      `rem`, from `menu` on, still belongs to `owner`. */
  ghost predicate Looping(g: Forest, p: nat, owner: int, a: State, b: State, done: Forest, rem: Forest, head: int, menu: int) {
    && Between(b.links, done, rem, head, menu, p, owner)
    && Pre(done) + Pre(rem) == Pre(g) && Ids(done) + Ids(rem) == Ids(g)
    && (done.Nil? ==> rem == g)
    && Kept(Ids(g), a.links, b.links) && CondsKept(Ids(g), a.conds, b.conds)
    && b.log == a.log + Pre(done)
    && b.touched <= a.touched + {p} + Ids(done)
  }

  lemma LoopStart(g: Forest, p: nat, owner: int, a: State, head: int)
    requires Holds(a.links, g, head, -1, owner) && NoDup(g)
    ensures Looping(g, p, owner, a, a, Nil, g, head, head)
  {
    assert Pre(Nil) + Pre(g) == Pre(g);
    assert a.log == a.log + Pre(Nil);
  }

  lemma LoopStep(g: Forest, p: nat, owner: int, a: State, b: State, c: State, d: State,
                 done: Forest, rem: Forest, head: int, menu: nat, m: Forest)
    requires Looping(g, p, owner, a, b, done, rem, head, menu) && p !in Ids(g)
    requires m.Node? && Finalized(menu, rem, owner, b, c, m, [menu] + Pre(m.kids))
    requires menu < |c.links.parent| && d.links == c.links.(parent := c.links.parent[menu := p])
    requires d.conds == c.conds && d.log == c.log && d.touched <= c.touched + {menu, p}
    ensures menu < |d.links.next|
    ensures Looping(g, p, owner, a, d, Append(done, Single(m)), m.rest, head, d.links.next[menu])
    ensures Append(done, Single(m)).Node? && LastRoot(Append(done, Single(m))) == menu && Count(m.rest) < Count(rem)
  {
    Advance(b.links, c.links, done, rem, m, head, menu, p, owner);
    AdvancePre(done, rem, m);
    Concat3(a.log, Pre(done), [menu] + Pre(m.kids));
    assert menu in Ids(rem);
  }

  /** A child has the right parent already. */
  lemma LoopStepKids(g: Forest, p: nat, a: State, b: State, c: State, done: Forest, rem: Forest, head: int, menu: nat, m: Forest)
    requires Looping(g, p, p, a, b, done, rem, head, menu) && p !in Ids(g)
    requires m.Node? && Finalized(menu, rem, p, b, c, m, [menu] + Pre(m.kids))
    ensures menu < |c.links.next|
    ensures Looping(g, p, p, a, c, Append(done, Single(m)), m.rest, head, c.links.next[menu])
    ensures Count(m.rest) < Count(rem)
  {
    assert c.links.parent[menu] == p && c.links.parent[menu := p] == c.links.parent;
    LoopStep(g, p, p, a, b, c, c, done, rem, head, menu, m);
  }

  /** The case of children: the chain stays where it is. */
  lemma LoopEndKids(f: Forest, p: nat, owner: int, a0: State, a: State, b: State, done: Forest)
    requires f.Node? && f.id == p && NoDup(f) && Holds(a.links, f, p, -1, owner)
    requires Looping(f.kids, p, p, a, b, done, Nil, a.links.list[p], -1)
    requires a.links == a0.links && a.log == a0.log && a.touched == a0.touched && CondsKept(Ids(f.kids), a0.conds, a.conds)
    ensures Finalized(p, f, owner, a0, b, Node(p, done, f.rest), Pre(done))
  {
    HoldsFrame(a.links, b.links, Ids(f.kids), f.rest, a.links.next[p], -1, owner);
    assert Pre(done) + Pre(Nil) == Pre(done);
  }

  /** The case of later siblings: the chain finished with goes below `p`. */
  lemma LoopEndNest(f: Forest, p: nat, owner: int, a: State, b: State, c: State, done: Forest, rem: Forest, menu: int)
    requires f.Node? && f.id == p && f.kids.Nil? && NoDup(f) && Holds(a.links, f, p, -1, owner)
    requires |a.links.next| == |a.links.list| == |a.links.parent|
    requires Looping(f.rest, p, owner, a, b, done, rem, a.links.next[p], menu) && done.Node?
    requires LastRoot(done) < |b.links.next|
    requires c == b.(links := b.links.(list := b.links.list[p := b.links.next[p]],
                                       next := b.links.next[p := menu][LastRoot(done) := -1]))
    ensures b.links.next[LastRoot(done)] == menu && LastRoot(done) != p && b.links.next[p] == a.links.next[p]
    ensures Finalized(p, f, owner, a, c, Node(p, done, rem), Pre(done))
  {
    NestChain(b.links, done, rem, menu, p, owner);
    Concat3([p], Pre(done), Pre(rem));
    assert [p] + Pre(Nil) + Pre(f.rest) == [p] + Pre(f.rest);
  }

  /** If no sibling qualified, nothing changed. */
  lemma LoopEndNone(f: Forest, p: nat, owner: int, a: State, b: State, rem: Forest, menu: int)
    requires f.Node? && f.id == p && f.kids.Nil? && NoDup(f) && Holds(a.links, f, p, -1, owner)
    requires Looping(f.rest, p, owner, a, b, Nil, rem, a.links.next[p], menu)
    ensures Finalized(p, f, owner, a, b, f, Pre(f.kids))
  {
    assert Linked(a.links.next, a.links.list, f.kids, a.links.list[p], -1);
    assert b.links.next[p] == menu && b.links.list[p] == -1 && b.links.parent[p] == owner;
    assert rem == f.rest && Holds(b.links, f.rest, menu, -1, owner);
    assert Holds(b.links, f, p, -1, owner);
    assert a.log + Pre(Nil) == a.log;
    assert Ids(f) - {p} == Ids(f.rest);
    assert b.touched <= a.touched + {p};
  }

  /** An entry without children and without a symbol stays as it is. */
  lemma FinalizedIdle(f: Forest, owner: int, a: State)
    requires f.Node? && f.kids.Nil? && Holds(a.links, f, f.id, -1, owner)
    ensures Finalized(f.id, f, owner, a, a, f, Pre(f.kids))
  {
    assert a.log == a.log + Pre(Nil);
  }

  /** Nothing of what is ahead in a loop was moved. */
  lemma LoopUntouched(g: Forest, p: nat, owner: int, a: State, b: State, done: Forest, rem: Forest, head: int, menu: int)
    requires Looping(g, p, owner, a, b, done, rem, head, menu) && a.touched !! Ids(g) && p !in Ids(g)
    ensures b.touched !! Ids(rem) && p !in Ids(rem) && Count(rem) <= Count(g)
    ensures menu != -1 ==> rem.Node? && rem.id == menu && menu < |b.links.next|
  {
    AppendFacts(done, rem);
    PreFacts(done);
    PreFacts(rem);
    PreFacts(g);
  }

  /** The three stages of one call. */
  lemma FinalizedThrough(p: nat, f: Forest, owner: int, a: State, b: State, c: State, g: Forest, f': Forest)
    requires NoDup(f) && g.Node? && f'.Node?
    requires Finalized(p, f, owner, a.(log := a.log + [p]), b, g, Pre(g.kids))
    requires Finalized(p, g, owner, b, c, f', []) && Pre(f'.kids) == Pre(g.kids) && c.conds == b.conds && c.touched == b.touched
    ensures Finalized(p, f, owner, a, c, f', [p] + Pre(f'.kids))
  {
    SamePre(f, g);
    KeptTrans(Ids(f), Ids(g), a.links, b.links, c.links);
    PreFacts(g.kids);
    PreFacts(f'.kids);
    assert forall x :: x in Ids(g.kids) ==> x in Pre(g.kids);
    Concat3(a.log, [p], Pre(g.kids));
    assert c.log == b.log;
  }

  ghost function NestedState(b: State, p: nat, menu: int, last: nat): State
    requires p < |b.links.next| && p < |b.links.list| && last < |b.links.next|
  {
    b.(links := b.links.(list := b.links.list[p := b.links.next[p]], next := b.links.next[p := menu][last := -1]))
  }
}
