/** conf_write: the walk over the menu tree without a stack, and which symbol is written
    where (confdata.c). */
module ConfWrite {
  import opened Tristates
  import opened Exprs
  import opened Forests
  import opened SymbolGraph
  import opened SymbolValue
  import opened Evaluator
  import opened Sequences

  /** The prompt of an entry without a symbol: its text and its condition, and
      `menu->visibility`. */
  datatype Heading = Heading(text: string, visible: Option<Expr>, visibility: Option<Expr>)

  /** What the entries of the menu tree are. */
  datatype Entries = Entries(sym: seq<Option<Symbol>>, heading: seq<Option<Heading>>, choices: set<Symbol>)

  datatype Item = Title(text: string) | Setting(sym: Symbol, value: SymVal)

  /** menu_is_visible, for an entry without a symbol. */
  ghost predicate IsShown(k: Kconfig, h: Option<Heading>)
    requires Ranked(k)
  {
    h.Some? && OptValue(h.value.visibility, AllEnv(k)) != NO && OptValue(h.value.visible, AllEnv(k)) != NO
  }

  ghost predicate IsSetting(k: Kconfig, e: Entries, s: Symbol)
    requires Ranked(k)
  {
    s !in e.choices && IsWritten(k, s)
  }

  ghost predicate Sized(e: Entries, visits: seq<nat>) {
    |e.heading| == |e.sym| && forall i :: 0 <= i < |visits| ==> visits[i] < |e.sym|
  }

  /** What an entry adds to the file, the entries `before` being written already. */
  ghost function ItemsOf(k: Kconfig, e: Entries, before: seq<nat>, i: nat): seq<Item>
    requires Ranked(k) && i < |e.sym| && Sized(e, before)
  {
    match e.sym[i]
    case None => if IsShown(k, e.heading[i]) then [Title(e.heading[i].value.text)] else []
    case Some(s) => if IsSetting(k, e, s) && !Entered(e, before, s) then [Setting(s, Calc(k, s))] else []
  }

  /** The symbol has an entry among these. */
  ghost predicate Entered(e: Entries, visits: seq<nat>, s: Symbol)
    requires Sized(e, visits)
  {
    exists j :: 0 <= j < |visits| && e.sym[visits[j]] == Some(s)
  }

  /** The file for the entries `visits`, in this order: every symbol at its first entry. */
  ghost function Document(k: Kconfig, e: Entries, visits: seq<nat>): seq<Item>
    requires Ranked(k) && Sized(e, visits)
  {
    if visits == [] then []
    else
      var before := visits[..|visits| - 1];
      Document(k, e, before) + ItemsOf(k, e, before, visits[|visits| - 1])
  }

  function Times(doc: seq<Item>, s: Symbol): nat {
    if doc == [] then 0
    else Times(doc[..|doc| - 1], s) + if doc[|doc| - 1].Setting? && doc[|doc| - 1].sym == s then 1 else 0
  }

  /** Every writable symbol with an entry stands in the file exactly once, however many
      entries it has; no other symbol does. */
  lemma {:induction false} EachSettingOnce(k: Kconfig, e: Entries, visits: seq<nat>, s: Symbol)
    requires Ranked(k) && Sized(e, visits)
    ensures Times(Document(k, e, visits), s) == if IsSetting(k, e, s) && Entered(e, visits, s) then 1 else 0
  {
    if visits != [] {
      var before, i := visits[..|visits| - 1], visits[|visits| - 1];
      EachSettingOnce(k, e, before, s);
      assert before + [i] == visits;
      EnteredSnoc(e, before, i, s);
      TimesSnoc(k, e, before, i, s);
    }
  }

  lemma TimesSnoc(k: Kconfig, e: Entries, before: seq<nat>, i: nat, s: Symbol)
    requires Ranked(k) && Sized(e, before) && i < |e.sym|
    ensures Times(Document(k, e, before) + ItemsOf(k, e, before, i), s)
         == Times(Document(k, e, before), s)
          + if e.sym[i] == Some(s) && IsSetting(k, e, s) && !Entered(e, before, s) then 1 else 0
  {
    TimesConcat(Document(k, e, before), ItemsOf(k, e, before, i), s);
  }

  lemma TimesConcat(doc: seq<Item>, more: seq<Item>, s: Symbol)
    requires |more| <= 1
    ensures Times(doc + more, s) == Times(doc, s) + if more != [] && more[0].Setting? && more[0].sym == s then 1 else 0
  {
    if more == [] { assert doc + more == doc; } else { assert (doc + more)[..|doc|] == doc; }
  }

  /** Every line gives the value of its symbol. */
  lemma {:induction false} EachSettingRight(k: Kconfig, e: Entries, visits: seq<nat>, i: nat)
    requires Ranked(k) && Sized(e, visits) && i < |Document(k, e, visits)| && Document(k, e, visits)[i].Setting?
    ensures var it := Document(k, e, visits)[i];
            it.value == Calc(k, it.sym) && IsSetting(k, e, it.sym) && Entered(e, visits, it.sym)
  {
    var before, last := visits[..|visits| - 1], visits[|visits| - 1];
    assert before + [last] == visits;
    EnteredSnoc(e, before, last, Document(k, e, visits)[i].sym);
    if i < |Document(k, e, before)| { EachSettingRight(k, e, before, i); }
  }

  /** The headings of a file, in order. */
  function Titles(doc: seq<Item>): seq<string> {
    if doc == [] then []
    else Titles(doc[..|doc| - 1]) + if doc[|doc| - 1].Title? then [doc[|doc| - 1].text] else []
  }

  /** The texts of the entries without a symbol whose condition and visibility are not no. */
  ghost function ShownTexts(k: Kconfig, e: Entries, visits: seq<nat>): seq<string>
    requires Ranked(k) && Sized(e, visits)
  {
    if visits == [] then []
    else
      var i := visits[|visits| - 1];
      ShownTexts(k, e, visits[..|visits| - 1])
      + if e.sym[i].None? && e.heading[i].Some?
          && OptValue(e.heading[i].value.visible, AllEnv(k)) != NO
          && OptValue(e.heading[i].value.visibility, AllEnv(k)) != NO
        then [e.heading[i].value.text] else []
  }

  /** The file has exactly these headings, each as often as it is shown, in order. */
  lemma {:induction false} TitlesAreShown(k: Kconfig, e: Entries, visits: seq<nat>)
    requires Ranked(k) && Sized(e, visits)
    ensures Titles(Document(k, e, visits)) == ShownTexts(k, e, visits)
  {
    if visits != [] {
      var before, i := visits[..|visits| - 1], visits[|visits| - 1];
      TitlesAreShown(k, e, before);
      var doc, more := Document(k, e, before), ItemsOf(k, e, before, i);
      if more == [] { assert doc + more == doc; } else { assert (doc + more)[..|doc|] == doc; }
    }
  }

  /** What the first entries add comes first. */
  lemma {:induction false} DocumentGrows(k: Kconfig, e: Entries, visits: seq<nat>, n: nat)
    requires Ranked(k) && Sized(e, visits) && n <= |visits|
    ensures Document(k, e, visits[..n]) <= Document(k, e, visits)
  {
    if n < |visits| {
      DocumentGrows(k, e, visits[..|visits| - 1], n);
      assert visits[..|visits| - 1][..n] == visits[..n];
    } else {
      assert visits[..n] == visits;
    }
  }

  lemma EnteredSnoc(e: Entries, before: seq<nat>, i: nat, s: Symbol)
    requires Sized(e, before) && i < |e.sym|
    ensures Sized(e, before + [i])
    ensures Entered(e, before + [i], s) <==> Entered(e, before, s) || e.sym[i] == Some(s)
  {
    var visits := before + [i];
    if Entered(e, before, s) {
      var j :| 0 <= j < |before| && e.sym[before[j]] == Some(s);
      assert e.sym[visits[j]] == Some(s);
    }
    if e.sym[i] == Some(s) { assert e.sym[visits[|before|]] == Some(s); }
    if Entered(e, visits, s) {
      var j :| 0 <= j < |visits| && e.sym[visits[j]] == Some(s);
      if j < |before| { assert e.sym[before[j]] == Some(s); }
    }
  }

  /** SYMBOL_WRITE of a symbol when the entries `visits` are done with: cleared where it
      was written, right where it is calculated. */
  ghost predicate FlagAt(k: Kconfig, e: Entries, visits: seq<nat>, store: Store, s: Symbol)
    requires Ranked(k) && Sized(e, visits)
  {
    var done := s !in e.choices && Entered(e, visits, s);
    s in store ==>
      && (done ==> store[s].valid)
      && (store[s].valid || !HasVisibility(s) ==> (store[s].write <==> IsWritten(k, s) && !done))
  }

  ghost predicate Flags(k: Kconfig, e: Entries, visits: seq<nat>, store: Store)
    requires Ranked(k) && Sized(e, visits)
  {
    forall s :: FlagAt(k, e, visits, store, s)
  }

  /** Calculating more values keeps the flags right. */
  lemma FlagsAdvance(k: Kconfig, e: Entries, visits: seq<nat>, a: Store, b: Store)
    requires Ranked(k) && Sized(e, visits) && a.Keys == k.graph.Keys && Flags(k, e, visits, a) && Advanced(k, a, b)
    ensures Flags(k, e, visits, b)
  {
    forall s ensures FlagAt(k, e, visits, b, s) {
      assert FlagAt(k, e, visits, a, s) && AdvancedAt(k, a, b, s);
    }
  }

  /** An entry without a symbol, or of a choice, does not matter to the flags. */
  lemma FlagsPass(k: Kconfig, e: Entries, visits: seq<nat>, i: nat, store: Store)
    requires Ranked(k) && Sized(e, visits) && i < |e.sym| && Flags(k, e, visits, store)
    requires e.sym[i].Some? ==> e.sym[i].value in e.choices
    ensures Flags(k, e, visits + [i], store)
  {
    forall s ensures FlagAt(k, e, visits + [i], store, s) {
      assert FlagAt(k, e, visits, store, s);
      EnteredSnoc(e, visits, i, s);
    }
  }

  /** The flag of a symbol that was calculated is cleared with its first line. */
  lemma FlagsClear(k: Kconfig, e: Entries, visits: seq<nat>, i: nat, store: Store)
    requires Ranked(k) && Sized(e, visits) && i < |e.sym| && Flags(k, e, visits, store)
    requires e.sym[i].Some? && e.sym[i].value !in e.choices && e.sym[i].value in store && store[e.sym[i].value].valid
    ensures store[e.sym[i].value].write <==> IsWritten(k, e.sym[i].value) && !Entered(e, visits, e.sym[i].value)
    ensures var st := store[e.sym[i].value]; Flags(k, e, visits + [i], store[e.sym[i].value := st.(write := false)])
  {
    var t := e.sym[i].value;
    var after := store[t := store[t].(write := false)];
    assert FlagAt(k, e, visits, store, t);
    forall s ensures FlagAt(k, e, visits + [i], after, s) {
      assert FlagAt(k, e, visits, store, s);
      EnteredSnoc(e, visits, i, s);
    }
  }

  /** The entries above one with the parent `owner`: each with its later siblings, up to
      the root, which has no parent. */
  ghost predicate Above(l: Links, above: seq<Forest>, owner: int)
    decreases |above|
  {
    if above == [] then owner == -1
    else
      && above[0].Node? && above[0].id == owner && owner < |l.next| && owner < |l.list| && owner < |l.parent|
      && Holds(l, above[0].rest, l.next[owner], -1, l.parent[owner])
      && Above(l, above[1..], l.parent[owner])
  }

  /** The document order from behind an entry on. */
  function After(above: seq<Forest>): seq<nat> {
    if above == [] then [] else (if above[0].Nil? then [] else Pre(above[0].rest)) + After(above[1..])
  }

  class Writer {
    const links: Links
    const entries: Entries
    const table: SymbolTable
    var out: seq<Item>

    constructor (links: Links, entries: Entries, table: SymbolTable)
      ensures this.links == links && this.entries == entries && this.table == table && out == []
    {
      this.links, this.entries, this.table, out := links, entries, table, [];
    }

    /** The inner loop of conf_write: up to the first entry that has a later sibling. */
    method Climb(menu: int, ghost above: seq<Forest>)
      returns (next: int, ghost g: Forest, ghost above': seq<Forest>, ghost owner: int)
      requires Above(links, above, menu)
      ensures Holds(links, g, next, -1, owner) && Above(links, above', owner)
      ensures After(above) == Pre(g) + After(above') && (next == -1 ==> After(above') == [])
    {
      next, above' := menu, above;
      while next != -1
        invariant Above(links, above', next) && After(above) == After(above')
        decreases |above'|
      {
        if links.next[next] != -1 {
          g, owner := above'[0].rest, links.parent[next];
          next, above' := links.next[next], above'[1..];
          return;
        }
        assert After(above') == [] + After(above'[1..]);
        next, above' := links.parent[next], above'[1..];
      }
      g, owner := Nil, -1;
      assert After(above') == [] && Pre(g) + After(above') == [];
    }

    /** The end of the loop body of conf_write: the entry after `menu` in document order,
        or -1. */
    method NextMenu(menu: nat, ghost g: Forest, ghost above: seq<Forest>, ghost owner: int)
      returns (next: int, ghost g': Forest, ghost above': seq<Forest>, ghost owner': int)
      requires g.Node? && g.id == menu && Holds(links, g, menu, -1, owner) && Above(links, above, owner)
      ensures Holds(links, g', next, -1, owner') && Above(links, above', owner')
      ensures Pre(g) + After(above) == [menu] + (Pre(g') + After(above'))
      ensures next == -1 ==> After(above') == []
    {
      Concat3([menu] + Pre(g.kids), Pre(g.rest), After(above));
      Concat3([menu], Pre(g.kids), Pre(g.rest) + After(above));
      if links.list[menu] != -1 {
        next, g', above', owner' := links.list[menu], g.kids, [g] + above, menu;
        assert above'[1..] == above;
      } else {
        NoneIsNil(g.kids, links.list[menu]);
        if links.next[menu] != -1 {
          next, g', above', owner' := links.next[menu], g.rest, above, owner;
        } else {
          NoneIsNil(g.rest, links.next[menu]);
          next, g', above', owner' := Climb(links.parent[menu], above);
        }
      }
    }

    lemma NoneIsNil(f: Forest, head: int)
      requires Linked(links.next, links.list, f, head, -1) && head == -1
      ensures f.Nil? && forall s: seq<nat> :: Pre(f) + s == s
    {
      assert forall s: seq<nat> :: [] + s == s;
    }

    /** What the table has to offer while the entries `visits` are done with. */
    ghost predicate Writing(k: Kconfig, visits: seq<nat>)
      reads this, table
    {
      && table.Holds(k) && Known(k) && Sized(entries, visits) && Flags(k, entries, visits, table.store)
      && out == Document(k, entries, visits)
    }

    /** menu_is_visible. */
    method IsVisible(h: Option<Heading>, ghost k: Kconfig, ghost visits: seq<nat>) returns (b: bool)
      requires Writing(k, visits)
      modifies table`store
      ensures Writing(k, visits) && b == IsShown(k, h)
    {
      if h.None? { return false; }
      ghost var a := table.store;
      var v := table.EvaluateOpt(h.value.visibility, k);
      FlagsAdvance(k, entries, visits, a, table.store);
      if v == NO { return false; }
      a := table.store;
      v := table.EvaluateOpt(h.value.visible, k);
      FlagsAdvance(k, entries, visits, a, table.store);
      b := v != NO;
    }

    /** The loop body of conf_write for one entry. */
    method WriteEntry(i: nat, ghost k: Kconfig, ghost visits: seq<nat>)
      requires Writing(k, visits) && i < |entries.sym|
      modifies this`out, table`store
      ensures Writing(k, visits + [i])
    {
      assert (visits + [i])[..|visits|] == visits;
      if entries.sym[i].None? {
        var b := IsVisible(entries.heading[i], k, visits);
        if b { out := out + [Title(entries.heading[i].value.text)]; }
        FlagsPass(k, entries, visits, i, table.store);
      } else if entries.sym[i].value in entries.choices {
        FlagsPass(k, entries, visits, i, table.store);
      } else {
        WriteSetting(entries.sym[i].value, i, k, visits);
      }
    }

    /** The case of a symbol that is no choice. */
    method WriteSetting(s: Symbol, i: nat, ghost k: Kconfig, ghost visits: seq<nat>)
      requires Writing(k, visits) && i < |entries.sym| && entries.sym[i] == Some(s) && s !in entries.choices
      modifies this`out, table`store
      ensures Writing(k, visits + [i])
    {
      assert (visits + [i])[..|visits|] == visits;
      ghost var a := table.store;
      table.Evaluate(s, k);
      FlagsAdvance(k, entries, visits, a, table.store);
      FlagsClear(k, entries, visits, i, table.store);
      ghost var b := table.store;
      if table.store[s].write {
        table.ClearWrite(s, k);
        out := out + [Setting(s, table.store[s].curr)];
      } else {
        assert b[s := b[s].(write := false)] == b;
      }
    }

    /** What conf_write does before its loop: with no change since the last write, all
        values are calculated anew. */
    method Prepare(ghost k: Kconfig)
      requires table.Fits(k) && out == [] && Known(k)
      modifies table`store, table`changed
      ensures Writing(k, [])
    {
      ghost var before := table.store;
      if !table.changed {
        table.ClearAllValid();
        FlagsCleared(k, k, before, false, table.store);
      }
      forall s ensures FlagAt(k, entries, [], table.store, s) { assert FlagFits(k, table.store, true, s); }
    }

    ghost predicate Known(k: Kconfig) {
      && |entries.heading| == |entries.sym|
      && forall i :: 0 <= i < |entries.sym| && entries.sym[i].Some? ==> entries.sym[i].value in k.graph
    }

    /** The walk stands at `menu`, and `todo` are the entries from there on. */
    ghost predicate StandsAt(menu: int, g: Forest, above: seq<Forest>, owner: int, todo: seq<nat>) {
      && Holds(links, g, menu, -1, owner) && Above(links, above, owner)
      && todo == Pre(g) + After(above) && (menu == -1 ==> todo == [])
    }

    lemma FirstIsNext(menu: int, g: Forest, above: seq<Forest>, owner: int, todo: seq<nat>)
      requires StandsAt(menu, g, above, owner, todo) && menu != -1
      ensures todo != [] && todo[0] == menu
    {}

    /** The next entry, and what is to come from there. */
    method Proceed(menu: nat, ghost g: Forest, ghost above: seq<Forest>, ghost owner: int, ghost todo: seq<nat>)
      returns (next: int, ghost g': Forest, ghost above': seq<Forest>, ghost owner': int)
      requires StandsAt(menu, g, above, owner, todo)
      ensures todo != [] && StandsAt(next, g', above', owner', todo[1..])
    {
      next, g', above', owner' := NextMenu(menu, g, above, owner);
      FirstAndRest(todo, menu, Pre(g') + After(above'));
    }

    /** The loop of conf_write, from the first entry below the root menu on: it ends, and
        visits all entries in document order, each once. */
    method Walk(root: nat, ghost f: Forest, ghost k: Kconfig)
      requires f.Node? && f.id == root && f.rest.Nil? && Holds(links, f, root, -1, -1) && root < |links.list|
      requires Writing(k, []) && Sized(entries, Pre(f.kids))
      modifies this`out, table`store
      ensures Writing(k, Pre(f.kids))
    {
      ghost var visits: seq<nat>, todo: seq<nat>, g, above, owner := [], Pre(f.kids), f.kids, [f], root;
      var menu := links.list[root];
      AboveRoot(f, root);
      while menu != -1
        invariant Writing(k, visits) && Pre(f.kids) == visits + todo && StandsAt(menu, g, above, owner, todo)
        decreases |todo|
      {
        FirstIsNext(menu, g, above, owner, todo);
        MoveOne(Pre(f.kids), visits, todo);
        ghost var here: nat, rest := menu, todo[1..];
        WriteEntry(menu, k, visits);
        menu, g, above, owner := Proceed(menu, g, above, owner, todo);
        visits, todo := visits + [here], rest;
      }
      assert visits == Pre(f.kids);
    }

    /** Everything is written: the flags may be stale until something changes. */
    method SetWritten(ghost k: Kconfig, ghost visits: seq<nat>)
      requires Writing(k, visits)
      modifies table`changed
      ensures table.Fits(k) && !table.changed
    {
      table.changed := false;
      forall s ensures FlagFits(k, table.store, false, s) { assert FlagAt(k, entries, visits, table.store, s); }
    }

    /** conf_write: the file is the document for the entries in document order. */
    method Write(root: nat, ghost f: Forest, ghost k: Kconfig)
      requires f.Node? && f.id == root && f.rest.Nil? && Holds(links, f, root, -1, -1) && root < |links.list|
      requires table.Fits(k) && out == [] && Known(k) && Sized(entries, Pre(f.kids))
      modifies this`out, table`store, table`changed
      ensures table.Fits(k) && !table.changed && out == Document(k, entries, Pre(f.kids))
    {
      Prepare(k);
      Walk(root, f, k);
      SetWritten(k, Pre(f.kids));
    }

    lemma AboveRoot(f: Forest, root: nat)
      requires f.Node? && f.id == root && f.rest.Nil? && Holds(links, f, root, -1, -1) && root < |links.list|
      ensures Holds(links, f.kids, links.list[root], -1, root) && Above(links, [f], root)
      ensures After([f]) == [] && Pre(f.kids) == Pre(f.kids) + After([f])
    {
      assert Above(links, [], -1) && [f][1..] == [];
      assert After([f]) == Pre(Nil) + After([]);
    }
  }
}
