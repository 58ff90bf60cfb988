/** menu_finalize: spreading dependencies down the menu tree, nesting the entries
    that depend on a symbol below it, and lifting what hangs below entries without
    a prompt (menu.c). */
module MenuFinalize {
  import opened Tristates
  import opened Exprs
  import opened Forests
  import opened SymbolGraph
  import opened SymbolValue
  import opened MenuDeps
  import opened Nesting
  import opened MenuTree
  import opened MenuConds
  import opened MenuSelects

  class Menus {
    const n: nat
    const fixed: Fixed
    /** The flag SYMBOL_OPTIONAL. */
    const optional: set<Symbol>
    var links: Links
    var conds: Conds
    /** `rev_dep.expr` and `dir_dep.expr` of the symbols that have one. */
    var revDep: map<Symbol, Expr>
    var dirDep: map<Symbol, Expr>
    /** The entries in the order of the calls of menu_finalize, the parents before
        them, the assignments since, and the entries named in these. */
    ghost var log: seq<nat>
    ghost var origin: seq<int>
    ghost var moves: seq<Move>
    ghost var touched: set<nat>

    ghost predicate Valid()
      reads this
    {
      Orderly(fixed, links, conds, n, touched, origin, moves)
    }

    ghost function Sels(): Sel
      reads this
    {
      Sel(revDep, dirDep)
    }

    ghost function Snap(): State
      reads this
    {
      State(links, conds, log, touched)
    }

    constructor (fixed: Fixed, optional: set<Symbol>, links: Links, conds: Conds)
      requires Sized(fixed, conds, |links.next|) && |links.next| == |links.list| == |links.parent|
      ensures Valid() && this.links == links && this.conds == conds && this.fixed == fixed
      ensures origin == links.parent && moves == [] && log == [] && touched == {}
    {
      this.n, this.fixed, this.optional := |links.next|, fixed, optional;
      this.links, this.conds, revDep, dirDep := links, conds, map[], map[];
      log, origin, moves, touched := [], links.parent, [], {};
    }

    /** The call for the root menu, which has no siblings: nothing is lost, doubled or
        reordered, every entry is finalized once, in document order, and every parent
        pointer names the entry whose chain holds it. */
    method FinalizeAll(root: nat, ghost f: Forest) returns (ghost f': Forest)
      requires Valid() && moves == [] && log == [] && touched == {}
      requires root < n && f.Node? && f.id == root && f.rest.Nil? && NoDup(f) && Holds(links, f, root, -1, -1)
      modifies this
      ensures Valid() && origin == old(links.parent)
      ensures f'.Node? && f'.rest.Nil? && Holds(links, f', root, -1, -1)
      ensures NoDup(f') && Pre(f') == Pre(f) && log == Pre(f)
      ensures Kept(Ids(f), old(links), links)
      ensures SpreadAll(fixed, f, old(conds), conds) && CondsKept(Ids(f) - {root}, old(conds), conds)
      ensures OptNegatesSymbols(ParentDep(fixed, old(conds), root)) ==>
        forall i :: i in Ids(f) && i != root ==> Reaches(fixed, i, old(conds), conds)
      ensures Summed(fixed, optional, f, conds, old(Sels()), Sels())
      ensures forall i :: i in Ids(f) && i != root && i < n ==> links.list[i] == -1 || HasPrompt(fixed, i)
    {
      ghost var t;
      f', t := Finalize(root, f, -1);
      AppendFacts(t, f'.rest);
      assert t == Nil;
      assert ParentDep(fixed, old(conds), root) == ParentDep(fixed, conds, root);
      if OptNegatesSymbols(ParentDep(fixed, conds, root)) { AllReach(fixed, f, old(conds), conds); }
      SamePre(f, f');
      FlatLinks(fixed, links, f'.kids, links.list[root], -1);
      assert [root] + Pre(f'.kids) + Pre(Nil) == [root] + Pre(f'.kids);
      assert [] + ([root] + Pre(f'.kids)) == [root] + Pre(f'.kids);
    }

    /** The chain `f` starts at `p`, and nothing in it was moved yet. */
    ghost predicate Ready(p: nat, f: Forest, owner: int)
      reads this
    {
      && Valid() && p < n
      && f.Node? && f.id == p && Holds(links, f, p, -1, owner) && NoDup(f)
      && touched !! Ids(f)
    }

    /** An assignment to a parent pointer. */
    method SetParent(child: nat, to: nat, ghost m: Move)
      requires Valid() && child < n && to < n && m.child == child && m.to == to
      requires MoveOk(fixed, conds, n, touched, m)
      modifies this`links, this`moves
      ensures Valid() && links == old(links).(parent := old(links.parent)[child := to])
    {
      MoveIsOrderly(fixed, links, conds, n, touched, origin, moves, m);
      links := links.(parent := links.parent[child := to]);
      moves := moves + [m];
    }

    /** A property that selects a symbol adds to its `rev_dep`. */
    method SelectBy(i: nat, p: Property)
      requires i < |fixed.sym|
      modifies this`revDep
      ensures revDep == AddSelectBy(old(revDep), fixed.sym[i], p)
    {
      if p.kind.SelectProp? && PropSymbol(p).Some? && fixed.sym[i].Some? {
        var es := PropSymbol(p).value;
        var more := Alloc(AndOp, Some(Sym(fixed.sym[i].value)), p.visible);
        revDep := AddSelect(revDep, es, more.value);
      }
    }

    /** The inner loop over the properties of one child. */
    method SpreadProps(i: nat, dep: Option<Expr>, before: seq<Property>) returns (ps: seq<Property>)
      requires i < |fixed.sym|
      modifies this`revDep
      ensures |ps| == |before|
      ensures forall j :: 0 <= j < |before| ==> SpreadTo(dep, IsExact(fixed, i), before[j], ps[j])
      ensures revDep == AddSelects(old(revDep), fixed.sym[i], ps)
    {
      ps := [];
      while |ps| < |before|
        invariant |ps| <= |before|
        invariant forall j :: 0 <= j < |ps| ==> SpreadTo(dep, IsExact(fixed, i), before[j], ps[j])
        invariant revDep == AddSelects(old(revDep), fixed.sym[i], ps)
      {
        var p := SpreadProperty(dep, IsExact(fixed, i), before[|ps|]);
        AddSelectsSnoc(old(revDep), fixed.sym[i], ps, p);
        SelectBy(i, p);
        ps := ps + [p];
      }
    }

    /** The loop body of menu_finalize for one child: its condition, its properties. */
    method SpreadEntry(i: nat, parentdep: Option<Expr>)
      requires Sized(fixed, conds, n) && i < n
      modifies this`conds, this`revDep
      ensures Sized(fixed, conds, n) && Spread(fixed, i, parentdep, old(conds), conds)
      ensures CondsKept({i}, old(conds), conds)
      ensures revDep == AddSelects(old(revDep), fixed.sym[i], conds.props[i])
    {
      var basedep := Conjoin(parentdep, conds.dep[i]);
      var ps := SpreadProps(i, basedep, conds.props[i]);
      conds := Conds(conds.dep[i := basedep], conds.props[i := ps]);
    }

    /** The first loop of menu_finalize over the children. */
    method SpreadDeps(p: nat, parentdep: Option<Expr>, ghost k: Forest)
      requires Valid() && p < n && Holds(links, k, links.list[p], -1, p) && NoDup(k) && touched !! Ids(k)
      modifies this`conds, this`revDep
      ensures Valid()
      ensures SpreadOver(fixed, Roots(k), parentdep, old(conds), conds)
      ensures Selected(fixed, k, conds, old(Sels()), Sels())
    {
      ghost var a, s0, rem, behind := conds, Sels(), k, Nil;
      var menu := links.list[p];
      while menu != -1
        invariant Sized(fixed, conds, n) && Holds(links, rem, menu, -1, p)
        invariant Spreading(fixed, parentdep, k, behind, rem, a, conds, s0, Sels())
        decreases Count(rem)
      {
        ghost var b, s1 := conds, Sels();
        SpreadEntry(menu, parentdep);
        SpreadingStep(fixed, parentdep, k, behind, rem, a, b, conds, s0, s1, Sels());
        behind, rem := Append(behind, Single(rem)), rem.rest;
        menu := links.next[menu];
      }
      SpreadingEnd(fixed, parentdep, k, behind, a, conds, s0, Sels());
      MovesFrame(fixed, a, conds, n, touched, touched, moves);
    }

    /** menu_finalize. The entry `p` heads the chain `f`; afterwards it heads a chain in
        the same document order, and it was finalized before all that ended up below
        it, each of these once and in document order. */
    method Finalize(p: nat, ghost f: Forest, ghost owner: int) returns (ghost f': Forest, ghost t: Forest)
      requires Ready(p, f, owner)
      modifies this
      ensures Valid() && origin == old(origin) && f'.Node?
      ensures Finalized(p, f, owner, old(Snap()), Snap(), f', [p] + Pre(f'.kids))
      ensures Flat(fixed, f'.kids) && (old(links.list)[p] == -1 ==> Stopped(fixed, conds, p, f'.rest))
      ensures f.rest == Append(t, f'.rest)
      ensures Done(fixed, optional, Node(p, f.kids, t), old(conds), conds, old(Sels()), Sels())
      decreases Count(f), 4
    {
      ghost var a, s0 := Snap(), Sels();
      log := log + [p];
      ghost var g;
      g, t := Gather(p, f, owner);
      ghost var b, s1 := Snap(), Sels();
      SamePre(f, g);
      f' := Lift(p, g, owner);
      FinalizedThrough(p, f, owner, a, b, Snap(), g, f');
      SelectByPrompt(p);
      SummedThrough(fixed, optional, p, f.kids, t, conds, s0, s1, Sels());
    }

    /** The two cases of menu_finalize: an entry with children, or a symbol without. */
    method Gather(p: nat, ghost f: Forest, ghost owner: int) returns (ghost f': Forest, ghost t: Forest)
      requires Ready(p, f, owner)
      modifies this
      ensures Valid() && origin == old(origin) && f'.Node?
      ensures Finalized(p, f, owner, old(Snap()), Snap(), f', Pre(f'.kids))
      ensures FlatBelow(fixed, f'.kids) && (old(links.list)[p] == -1 ==> Stopped(fixed, conds, p, f'.rest))
      ensures f.rest == Append(t, f'.rest) && Settled(fixed, Node(p, f.kids, t), old(conds), conds)
      ensures Gathered(fixed, optional, p, f.kids, t, conds, old(Sels()), Sels())
      decreases Count(f), 3
    {
      if links.list[p] != -1 {
        f', t := FinalizeChildren(p, f, owner);
      } else if fixed.sym[p].Some? {
        f', t := Absorb(p, f, owner);
      } else {
        f', t := f, Nil;
        assert Linked(links.next, links.list, f.kids, links.list[p], -1);
        FinalizedIdle(f, owner, Snap());
        GatheredBeside(fixed, optional, p, Nil, conds, Sels(), Sels(), Sels());
      }
    }

    /** The last statement of menu_finalize. */
    method SelectByPrompt(p: nat)
      requires Valid() && p < n
      modifies this`revDep
      ensures Valid()
      ensures forall s, env :: Added(old(Sels()), Sels(), PromptSelects(fixed, optional, conds, p, s, env), NO, s, env)
    {
      if fixed.sym[p].Some? && fixed.sym[p].value !in optional && fixed.prompt[p].Some? {
        var s := fixed.sym[p].value;
        var more := Alloc(AndOp, PromptCond(fixed, conds, p), Some(Sym(SymMod)));
        ghost var before := Sels();
        revDep := AddSelect(revDep, s, more.value);
        forall t, env ensures Added(before, Sels(), PromptSelects(fixed, optional, conds, p, t, env), NO, t, env) {
          AddSelectValue(before.rev, s, PromptCond(fixed, conds, p), Sym(SymMod), t, env);
        }
      }
    }

    /** The case of an entry that has children already. */
    method FinalizeChildren(p: nat, ghost f: Forest, ghost owner: int) returns (ghost f': Forest, ghost t: Forest)
      requires Ready(p, f, owner) && links.list[p] != -1
      modifies this
      ensures Valid() && origin == old(origin) && f'.Node?
      ensures Finalized(p, f, owner, old(Snap()), Snap(), f', Pre(f'.kids)) && FlatBelow(fixed, f'.kids)
      ensures f.rest == Append(t, f'.rest) && Settled(fixed, Node(p, f.kids, t), old(conds), conds)
      ensures Gathered(fixed, optional, p, f.kids, t, conds, old(Sels()), Sels())
      decreases Count(f), 2
    {
      var parentdep :=
        if fixed.sym[p].Some? && fixed.sym[p].value in fixed.choices then Some(Sym(fixed.sym[p].value))
        else EntryCond(fixed, conds, p);
      ghost var a0, s0 := Snap(), Sels();
      SpreadDeps(p, parentdep, f.kids);
      ghost var a, s1 := Snap(), Sels();
      ghost var done := FinalizeKids(p, f);
      f', t := Node(p, done, f.rest), Nil;
      LoopEndKids(f, p, owner, a0, a, Snap(), done);
      SettledBelow(fixed, p, f.kids, a0.conds, a.conds, conds);
      GatheredBelow(fixed, optional, p, f.kids, a.conds, conds, s0, s1, Sels());
    }

    /** The second loop of menu_finalize over the children. */
    method FinalizeKids(p: nat, ghost f: Forest) returns (ghost done: Forest)
      requires Valid() && p < n && f.Node? && f.id == p && NoDup(f) && touched !! Ids(f)
      requires Holds(links, f.kids, links.list[p], -1, p)
      modifies this
      ensures Valid() && origin == old(origin)
      ensures Looping(f.kids, p, p, old(Snap()), Snap(), done, Nil, old(links.list)[p], -1) && FlatBelow(fixed, done)
      ensures Done(fixed, optional, f.kids, old(conds), conds, old(Sels()), Sels())
      decreases Count(f), 1
    {
      ghost var a, s0, head, rem, behind := Snap(), Sels(), links.list[p], f.kids, Nil;
      var menu := links.list[p];
      done := Nil;
      LoopStart(f.kids, p, p, a, head);
      while menu != -1
        invariant Valid() && origin == old(origin)
        invariant Looping(f.kids, p, p, a, Snap(), done, rem, head, menu) && FlatBelow(fixed, done)
        invariant Append(behind, rem) == f.kids && Done(fixed, optional, behind, a.conds, conds, s0, Sels())
        decreases Count(rem)
      {
        ghost var b, s1 := Snap(), Sels();
        LoopUntouched(f.kids, p, p, a, b, done, rem, head, menu);
        assert Holds(links, rem, menu, -1, p) && NoDup(rem);
        ghost var m, t := Finalize(menu, rem, p);
        LoopStepKids(f.kids, p, a, b, Snap(), done, rem, head, menu, m);
        DoneStep(fixed, optional, behind, rem, t, m.rest, a.conds, b.conds, conds, s0, s1, Sels());
        FlatBelowStep(fixed, done, m);
        behind := Append(behind, Node(menu, rem.kids, t));
        done, rem := Append(done, Single(m)), m.rest;
        menu := links.next[menu];
      }
      AppendNil(behind);
    }

    /** The case of a symbol without children: later siblings may go below it. */
    method Absorb(p: nat, ghost f: Forest, ghost owner: int) returns (ghost f': Forest, ghost t: Forest)
      requires Ready(p, f, owner) && links.list[p] == -1 && fixed.sym[p].Some?
      modifies this
      ensures Valid() && origin == old(origin) && f'.Node?
      ensures Finalized(p, f, owner, old(Snap()), Snap(), f', Pre(f'.kids))
      ensures FlatBelow(fixed, f'.kids) && Stopped(fixed, conds, p, f'.rest)
      ensures f.rest == Append(t, f'.rest) && Settled(fixed, Node(p, f.kids, t), old(conds), conds)
      ensures Gathered(fixed, optional, p, f.kids, t, conds, old(Sels()), Sels())
      decreases Count(f), 2
    {
      ghost var a, s0 := Snap(), Sels();
      assert Linked(links.next, links.list, f.kids, links.list[p], -1);
      var menu, last;
      ghost var done, rem;
      menu, last, done, rem, t := AbsorbSiblings(p, f, owner);
      f' := Close(p, last, f, owner, a, menu, done, rem);
      TakenBeside(f, t, rem, a.conds, conds);
      ghost var s1 := Sels();
      DependOn(p);
      GatheredBeside(fixed, optional, p, t, conds, s0, s1, Sels());
    }

    /** The siblings that qualified, if any, go below `p`. */
    method Close(p: nat, last: int, ghost f: Forest, ghost owner: int, ghost a: State, ghost menu: int, ghost done: Forest,
                 ghost rem: Forest)
      returns (ghost f': Forest)
      requires Valid() && p < n && f.Node? && f.id == p && f.kids.Nil? && NoDup(f) && Holds(a.links, f, p, -1, owner)
      requires |a.links.next| == |a.links.list| == |a.links.parent| == n
      requires Looping(f.rest, p, owner, a, Snap(), done, rem, a.links.next[p], menu)
      requires last == if done.Nil? then -1 else LastRoot(done)
      modifies this`links
      ensures Valid() && f'.Node? && f'.rest == rem && f'.kids == done && Finalized(p, f, owner, a, Snap(), f', Pre(f'.kids))
    {
      ghost var b := Snap();
      if last != -1 {
        LinkedCut(links.next, links.list, done, a.links.next[p], menu, -1);
        LoopEndNest(f, p, owner, a, b, NestedState(b, p, menu, last), done, rem, menu);
        HangBelow(p, last);
        f' := Node(p, done, rem);
      } else {
        LoopEndNone(f, p, owner, a, b, rem, menu);
        f' := f;
      }
    }

    lemma TakenBeside(f: Forest, t: Forest, rem: Forest, a: Conds, b: Conds)
      requires f.Node? && f.kids.Nil? && NoDup(f) && f.rest == Append(t, rem)
      requires Sized(fixed, b, n) && f.id < n && Settled(fixed, t, a, b)
      ensures Settled(fixed, Node(f.id, f.kids, t), a, b)
    {
      AppendFacts(t, rem);
      SettledBeside(fixed, f.id, t, a, b);
    }

    /** The chain up to `last` goes below `p`. */
    method HangBelow(p: nat, last: nat)
      requires Valid() && p < n && last < n && last != p
      modifies this`links
      ensures Valid() && Snap() == NestedState(old(Snap()), p, old(links.next)[last], last)
    {
      links := links.(list := links.list[p := links.next[p]]);
      links := links.(next := links.next[p := links.next[last]]);
      links := links.(next := links.next[last := -1]);
    }

    /** The loop over the later siblings: up to the first that does not qualify. */
    method AbsorbSiblings(p: nat, ghost f: Forest, ghost owner: int)
      returns (menu: int, last: int, ghost done: Forest, ghost rem: Forest, ghost t: Forest)
      requires Ready(p, f, owner) && fixed.sym[p].Some?
      modifies this
      ensures Valid() && origin == old(origin)
      ensures Looping(f.rest, p, owner, old(Snap()), Snap(), done, rem, old(links.next)[p], menu) && FlatBelow(fixed, done)
      ensures last == if done.Nil? then -1 else LastRoot(done)
      ensures f.rest == Append(t, rem) && Done(fixed, optional, t, old(conds), conds, old(Sels()), Sels())
      ensures menu != -1 ==>
        0 <= menu < n && !Qualifies(EntryCond(fixed, conds, menu), fixed.sym[p].value, PromptCond(fixed, conds, p))
      decreases Count(f), 1
    {
      var reduced := Reduced(PromptCond(fixed, conds, p));
      ghost var a, s0, head := Snap(), Sels(), links.next[p];
      done, rem, t := Nil, f.rest, Nil;
      menu, last := links.next[p], -1;
      LoopStart(f.rest, p, owner, a, head);
      while menu != -1
        invariant Valid() && origin == old(origin)
        invariant Looping(f.rest, p, owner, a, Snap(), done, rem, head, menu) && FlatBelow(fixed, done)
        invariant last == if done.Nil? then -1 else LastRoot(done)
        invariant f.rest == Append(t, rem) && Done(fixed, optional, t, a.conds, conds, s0, Sels())
        decreases Count(rem)
      {
        LoopUntouched(f.rest, p, owner, a, Snap(), done, rem, head, menu);
        assert PromptCond(fixed, conds, p) == PromptCond(fixed, a.conds, p);
        var b;
        b, done, rem, t := TryNext(p, menu, reduced, f.rest, owner, a, s0, done, rem, t, head);
        if !b { break; }
        last := menu;
        menu := links.next[menu];
      }
    }

    /** One round of the loop: the sibling at hand qualifies and goes below `p`, or not. */
    method TryNext(p: nat, menu: nat, reduced: Expr, ghost g: Forest, ghost owner: int, ghost a: State, ghost s0: Sel,
                   ghost done: Forest, ghost rem: Forest, ghost t: Forest, ghost head: int)
      returns (b: bool, ghost done': Forest, ghost rem': Forest, ghost t': Forest)
      requires Ready(menu, rem, owner) && p < n && p !in Ids(rem) && p !in Ids(g) && fixed.sym[p].Some?
      requires reduced == ReducedOf(PromptCond(fixed, conds, p))
      requires forall env :: WellTyped(env) ==> Value(reduced, env) == Value(NotNo(PromptCond(fixed, conds, p)), env)
      requires NoDup(g) && Looping(g, p, owner, a, Snap(), done, rem, head, menu) && FlatBelow(fixed, done)
      requires g == Append(t, rem) && Done(fixed, optional, t, a.conds, conds, s0, Sels())
      modifies this
      ensures Valid() && origin == old(origin) && menu < n
      ensures !b ==> unchanged(this) && done' == done && rem' == rem && t' == t
      ensures !b ==> !Qualifies(EntryCond(fixed, conds, menu), fixed.sym[p].value, PromptCond(fixed, conds, p))
      ensures b ==> Looping(g, p, owner, a, Snap(), done', rem', head, links.next[menu]) && FlatBelow(fixed, done')
      ensures g == Append(t', rem') && Done(fixed, optional, t', a.conds, conds, s0, Sels())
      ensures b ==> done'.Node? && LastRoot(done') == menu && Count(rem') < Count(rem)
      decreases Count(rem), 7
    {
      b := ShouldNest(EntryCond(fixed, conds, menu), fixed.sym[p].value, reduced, PromptCond(fixed, conds, p));
      if b {
        done', rem', t' := NestNext(p, menu, g, owner, a, s0, done, rem, t, head);
      } else {
        done', rem', t' := done, rem, t;
      }
    }

    /** One round of the loop, for a sibling that qualifies. */
    method NestNext(p: nat, menu: nat, ghost g: Forest, ghost owner: int, ghost a: State, ghost s0: Sel,
                    ghost done: Forest, ghost rem: Forest, ghost t: Forest, ghost head: int)
      returns (ghost done': Forest, ghost rem': Forest, ghost t': Forest)
      requires Ready(menu, rem, owner) && p < n && p !in Ids(rem) && p !in Ids(g) && fixed.sym[p].Some?
      requires Qualifies(EntryCond(fixed, conds, menu), fixed.sym[p].value, PromptCond(fixed, conds, p))
      requires Justified(EntryCond(fixed, conds, menu).value, fixed.sym[p].value, PromptCond(fixed, conds, p))
      requires NoDup(g) && Looping(g, p, owner, a, Snap(), done, rem, head, menu) && FlatBelow(fixed, done)
      requires g == Append(t, rem) && Done(fixed, optional, t, a.conds, conds, s0, Sels())
      modifies this
      ensures Valid() && origin == old(origin) && menu < n
      ensures Looping(g, p, owner, a, Snap(), done', rem', head, links.next[menu]) && FlatBelow(fixed, done')
      ensures g == Append(t', rem') && Done(fixed, optional, t', a.conds, conds, s0, Sels())
      ensures done'.Node? && LastRoot(done') == menu && Count(rem') < Count(rem)
      decreases Count(rem), 6
    {
      ghost var b, s1 := Snap(), Sels();
      ghost var m, c, more := NestOne(p, menu, rem, owner);
      LoopStep(g, p, owner, a, b, c, Snap(), done, rem, head, menu, m);
      DoneStep(fixed, optional, t, rem, more, m.rest, a.conds, b.conds, conds, s0, s1, Sels());
      FlatBelowStep(fixed, done, m);
      done', rem', t' := Append(done, Single(m)), m.rest, Append(t, Node(menu, rem.kids, more));
    }

    /** `dir_dep` of the symbol takes in the condition of this entry for it. */
    method DependOn(p: nat)
      requires Valid() && p < n && fixed.sym[p].Some?
      modifies this`dirDep
      ensures Valid()
      ensures forall s :: s in dirDep <==> s in old(dirDep) || (fixed.sym[p] == Some(s) && conds.dep[p].Some?)
      ensures forall s, env :: s in dirDep && fixed.sym[p] == Some(s) && conds.dep[p].Some? ==>
        Value(dirDep[s], env) == TriOr(if s in old(dirDep) then Value(old(dirDep)[s], env) else NO, OptValue(conds.dep[p], env))
      ensures forall s :: s in old(dirDep) && (fixed.sym[p] != Some(s) || conds.dep[p].None?) ==> dirDep[s] == old(dirDep)[s]
      ensures forall s, env :: Added(old(Sels()), Sels(), NO, LeafDep(fixed, conds, p, s, env), s, env)
      ensures DirFrom(fixed, {p}, conds, old(dirDep), dirDep)
    {
      var s := fixed.sym[p].value;
      var e := Alloc(OrOp, if s in dirDep then Some(dirDep[s]) else None, conds.dep[p]);
      if e.Some? { dirDep := dirDep[s := e.value]; }
    }

    /** Finalizing the sibling at hand and taking it below `p`. */
    method NestOne(p: nat, menu: nat, ghost rem: Forest, ghost owner: int) returns (ghost m: Forest,
                   ghost c: State, ghost t: Forest)
      requires Ready(menu, rem, owner) && p < n && p !in Ids(rem) && fixed.sym[p].Some?
      requires Qualifies(EntryCond(fixed, conds, menu), fixed.sym[p].value, PromptCond(fixed, conds, p))
      requires Justified(EntryCond(fixed, conds, menu).value, fixed.sym[p].value, PromptCond(fixed, conds, p))
      modifies this
      ensures Valid() && origin == old(origin) && m.Node?
      ensures Finalized(menu, rem, owner, old(Snap()), c, m, [menu] + Pre(m.kids)) && menu < |c.links.parent|
      ensures Snap() == c.(links := c.links.(parent := c.links.parent[menu := p]), touched := c.touched + {menu, p})
      ensures rem.rest == Append(t, m.rest) && Flat(fixed, m.kids)
      ensures Done(fixed, optional, Node(menu, rem.kids, t), old(conds), conds, old(Sels()), Sels())
      decreases Count(rem), 5
    {
      m, t := Finalize(menu, rem, owner);
      c := Snap();
      TakeBelow(p, menu);
    }

    /** The sibling gets its new parent. */
    method TakeBelow(p: nat, menu: nat)
      requires Valid() && menu < n && p < n && fixed.sym[p].Some?
      requires Qualifies(EntryCond(fixed, conds, menu), fixed.sym[p].value, PromptCond(fixed, conds, p))
      requires Justified(EntryCond(fixed, conds, menu).value, fixed.sym[p].value, PromptCond(fixed, conds, p))
      modifies this`links, this`moves, this`touched
      ensures Valid()
      ensures links == old(links).(parent := old(links.parent)[menu := p]) && touched == old(touched) + {menu, p}
    {
      MovesFrame(fixed, conds, conds, n, touched, touched + {menu, p}, moves);
      touched := touched + {menu, p};
      SetParent(menu, p, Nest(menu, p));
    }

    /** The last loop of menu_finalize: what hangs below an entry without a prompt
        moves up, behind it. */
    method Lift(p: nat, ghost f: Forest, ghost owner: int) returns (ghost f': Forest)
      requires Valid() && p < n && f.Node? && f.id == p && Holds(links, f, p, -1, owner) && NoDup(f)
      requires FlatBelow(fixed, f.kids)
      modifies this`links, this`moves
      ensures Valid() && f'.Node? && Pre(f'.kids) == Pre(f.kids)
      ensures Finalized(p, f, owner, old(Snap()), Snap(), f', []) && f'.rest == f.rest
      ensures Flat(fixed, f'.kids) && ListsKept(fixed, old(links), links)
    {
      ghost var a, head, done, rem := links, links.list[p], Nil, f.kids;
      var menu := links.list[p];
      while menu != -1
        invariant Valid() && Lifting(f.kids, p, a, links, done, rem, head, menu)
        invariant Levelled(fixed, a, links, done, rem)
        decreases Count(rem)
      {
        ghost var b, m := links, rem;
        if links.list[menu] != -1 && fixed.prompt[menu].None? {
          RaiseKids(p, menu, rem);
          m := Node(menu, Nil, Append(rem.kids, rem.rest));
        }
        LiftStep(f.kids, p, a, b, links, done, rem, head, menu, m);
        FlatStep(fixed, a, b, links, done, rem, m, -1);
        done, rem := Append(done, Single(m)), m.rest;
        menu := links.next[menu];
      }
      f' := Node(p, done, f.rest);
      LiftEnd(f, p, owner, a, links, done, head);
    }

    /** The last statements for an entry without a prompt: its children go behind it. */
    method RaiseKids(p: nat, menu: nat, ghost m: Forest)
      requires Valid() && p < n && menu < n && m.Node? && m.id == menu && NoDup(m) && Holds(links, m, menu, -1, p)
      requires links.list[menu] != -1 && fixed.prompt[menu].None?
      modifies this`links, this`moves
      ensures Valid() && Kept(Ids(m), old(links), links) && links.list == old(links.list)[menu := -1]
      ensures Holds(links, Node(menu, Nil, Append(m.kids, m.rest)), menu, -1, p)
    {
      ghost var a := links;
      ghost var done, rem;
      var last;
      last, done, rem := HandOver(p, menu, m.kids);
      RaiseEnd(m, p, a, links, done, rem, links.list[menu]);
      links := links.(next := links.next[last := links.next[menu]]);
      links := links.(next := links.next[menu := links.list[menu]], list := links.list[menu := -1]);
    }

    /** The inner loop: every child of `menu` gets the parent `p`. */
    method HandOver(p: nat, menu: nat, ghost k: Forest) returns (last: nat, ghost done: Forest, ghost rem: Forest)
      requires Valid() && p < n && menu < n && NoDup(k) && Holds(links, k, links.list[menu], -1, menu)
      requires links.list[menu] != -1 && fixed.prompt[menu].None?
      modifies this`links, this`moves
      ensures Valid() && links.next == old(links.next) && links.list == old(links.list) && last < n
      ensures Raising(old(links), links, done, rem, old(links.list)[menu], -1, p, menu, k)
      ensures done.Node? && LastRoot(done) == last
    {
      ghost var a, head := links, links.list[menu];
      done, rem := Nil, k;
      last := links.list[menu];
      RaiseStep(a, links, done, rem, head, last, p, menu, k);
      done, rem := Append(done, Single(rem)), rem.rest;
      SetParent(last, p, Raise(last, menu, p));
      while links.next[last] != -1
        invariant Valid() && last < n && links.next == a.next && links.list == a.list
        invariant Raising(a, links, done, rem, head, links.next[last], p, menu, k)
        invariant done.Node? && LastRoot(done) == last
        decreases Count(rem)
      {
        RaiseStep(a, links, done, rem, head, links.next[last], p, menu, k);
        last := links.next[last];
        done, rem := Append(done, Single(rem)), rem.rest;
        SetParent(last, p, Raise(last, menu, p));
      }
    }
  }
}
