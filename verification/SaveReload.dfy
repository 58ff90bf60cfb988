/** Writing the configuration and loading it again: which values survive
    (confdata.c, symbol.c). */
module SaveReload {
  import opened Tristates
  import opened Exprs
  import opened SymbolGraph
  import opened SymbolValue
  import opened Evaluator
  import opened ConfLine
  import opened ConfRead
  import opened ConfWrite
  import opened ConfRoundTrip

  /** Every symbol has a name of its own, and an entry in the menu tree if it is to be
      written, unlike UNAME_RELEASE or the 5 of an unquoted default; a setting was checked
      when it was made, and was not made for a generated symbol with a prompt. Choices
      apart. */
  ghost predicate IsComplete(k: Kconfig, e: Entries, visits: seq<nat>) {
    && Ranked(k) && ConfWrite.Sized(e, visits) && e.choices == {}
    && (forall s :: IsWritten(k, s) ==> Entered(e, visits, s))
    && (forall s, t :: s in k.graph && t in k.graph && s != t ==> k.graph[s].name != k.graph[t].name)
    && (forall s :: s in k.user && s in k.graph ==> UserIsValid(s, k.user[s]) && NotOverruled(k.graph[s]))
  }

  ghost predicate UserIsValid(s: Symbol, v: SymVal) {
    s.Config? && (IsLogical(s) || IsValidText(s.typ, v.val) || !HasVisibility(s))
  }

  /** SYMBOL_AUTO: the symbol is not written, so no setting may count for it. */
  predicate NotOverruled(d: Decl) { d.auto ==> Prompts(d.props) == [] }

  /** The settings after loading a file: by the names of the symbols. */
  function Loaded(g: Graph, user: Settings): map<Symbol, SymVal> {
    map s | s in g && g[s].name in user :: user[g[s].name]
  }

  /** Exactly which values survive. A symbol in reach of the user is not above its
      visibility, unless others demand that: only a default can put it there. A number
      does not end in a carriage return. */
  ghost predicate Survives(k: Kconfig, s: Symbol)
    requires Ranked(k)
  {
    s in k.graph && HasVisibility(s) && !k.graph[s].auto ==>
      var d, env := k.graph[s], AllEnv(k);
      Visible(s, d, env, k.modules) != NO ==>
        if IsLogical(s) then Calc(k, s).tri <= TriOr(Visible(s, d, env, k.modules), RevDep(s, d, env, k.modules))
        else Restored(s, Calc(k, s)).Some? ==> IsValidText(s.typ, Calc(k, s).val)
  }

  /** What the file says of a symbol. */
  lemma LoadedAt(k: Kconfig, e: Entries, visits: seq<nat>, s: Symbol)
    requires IsComplete(k, e, visits) && s in k.graph && s.Config?
    ensures var user := Loaded(k.graph, ReadBack(k.graph, Document(k, e, visits)));
            UserOf(user, s) == if IsWritten(k, s) then Restored(s, Calc(k, s)) else None
  {
    var doc := Document(k, e, visits);
    DocumentNames(k, e, visits);
    if IsWritten(k, s) {
      EachSettingOnce(k, e, visits, s);
      var i := Find(doc, s);
      EachSettingRight(k, e, visits, i);
      ReadBackAt(k.graph, doc, i);
    } else {
      forall i | 0 <= i < |doc| && doc[i].Setting? && doc[i].sym in k.graph
        ensures k.graph[doc[i].sym].name != k.graph[s].name
      {
        EachSettingRight(k, e, visits, i);
      }
      ReadBackOnly(k.graph, doc, k.graph[s].name);
    }
  }

  lemma {:induction false} Find(doc: seq<Item>, s: Symbol) returns (i: nat)
    requires Times(doc, s) > 0
    ensures i < |doc| && doc[i].Setting? && doc[i].sym == s
  {
    if doc[|doc| - 1].Setting? && doc[|doc| - 1].sym == s { return |doc| - 1; }
    i := Find(doc[..|doc| - 1], s);
  }

  /** Two lines for one symbol count twice. */
  lemma {:induction false} TimesAtLeast(doc: seq<Item>, i: nat, j: nat, s: Symbol)
    requires i < |doc| && doc[i].Setting? && doc[i].sym == s
    ensures Times(doc, s) >= 1
    ensures i < j < |doc| && doc[j].Setting? && doc[j].sym == s ==> Times(doc, s) >= 2
  {
    var before := doc[..|doc| - 1];
    if i < |before| { TimesAtLeast(before, i, if j < |before| then j else i, s); }
  }

  lemma DocumentNames(k: Kconfig, e: Entries, visits: seq<nat>)
    requires IsComplete(k, e, visits)
    ensures DistinctNames(k.graph, Document(k, e, visits))
  {
    var doc := Document(k, e, visits);
    forall i, j | 0 <= i < j < |doc| && doc[i].Setting? && doc[j].Setting? && doc[i].sym in k.graph && doc[j].sym in k.graph
      ensures k.graph[doc[i].sym].name != k.graph[doc[j].sym].name
    {
      if doc[i].sym == doc[j].sym {
        EachSettingOnce(k, e, visits, doc[i].sym);
        TimesAtLeast(doc, i, j, doc[i].sym);
      }
    }
  }

  /** The configuration after writing and loading. */
  ghost function Reloaded(k: Kconfig, e: Entries, visits: seq<nat>): Kconfig
    requires Ranked(k) && ConfWrite.Sized(e, visits)
  {
    k.(user := Loaded(k.graph, ReadBack(k.graph, Document(k, e, visits))))
  }

  lemma ReloadedIsRanked(k: Kconfig, e: Entries, visits: seq<nat>)
    requires Ranked(k) && ConfWrite.Sized(e, visits)
    ensures Ranked(Reloaded(k, e, visits))
  {
    forall s ensures RankedAt(Reloaded(k, e, visits), s) { assert RankedAt(k, s); }
  }

  /** With the values of all others unchanged, the symbol keeps its value exactly if it
      survives. */
  lemma SurvivesHere(k: Kconfig, s: Symbol, user: Option<SymVal>)
    requires Ranked(k) && s in k.graph && s.Config?
    requires user == if IsWritten(k, s) then Restored(s, Calc(k, s)) else None
    requires s in k.user ==> UserIsValid(s, k.user[s]) && NotOverruled(k.graph[s])
    ensures CalcDecl(s, k.graph[s], user, AllVals(k), k.modules) == Calc(k, s) <==> Survives(k, s)
  {
    CalcIsFixpoint(k, s);
    var d, env, m := k.graph[s], AllEnv(k), k.modules;
    if IsLogical(s) {
      CalcIsTyped(k, s);
      SettleAgain(Visible(s, d, env, m), UserOf(k.user, s), user, DefaultTri(d.props, env), RevDep(s, d, env, m), TypeNow(s, m));
    } else if HasVisibility(s) {
      RestoredIff(s, Calc(k, s));
    }
  }

  /** Making the value of a symbol its setting. */
  lemma SettleAgain(visible: Tristate, user: Option<SymVal>, user': Option<SymVal>, default: Tristate,
                    rev: Tristate, typ: SymbolType)
    requires typ == BooleanType ==> visible != MOD && rev != MOD
    ensures var v := Settle(visible, user, default, rev, typ);
      && (visible == NO ==> Settle(visible, user', default, rev, typ) == v)
      && (user' == user ==> Settle(visible, user', default, rev, typ) == v)
      && (visible != NO && user'.Some? && user'.value.tri == v ==>
            (Settle(visible, user', default, rev, typ) == v <==> v <= TriOr(visible, rev)))
  {}

  lemma {:induction false} ReloadKeeps(k: Kconfig, e: Entries, visits: seq<nat>, s: Symbol)
    requires IsComplete(k, e, visits) && Ranked(Reloaded(k, e, visits))
    requires AllSurvive(k)
    ensures Calc(Reloaded(k, e, visits), s) == Calc(k, s)
    decreases k.rank(s)
  {
    var k' := Reloaded(k, e, visits);
    CalcIsFixpoint(k, s);
    CalcIsFixpoint(k', s);
    if s in k.graph {
      assert RankedAt(k, s);
      forall x | x in EvalDeps(k.graph[s]) ensures AllVals(k)(x) == AllVals(k')(x) {
        ReloadKeeps(k, e, visits, x);
      }
      CalcDeclAgrees(s, k.graph[s], UserOf(k'.user, s), AllVals(k), AllVals(k'), k.modules);
      LoadedAt(k, e, visits, s);
      assert Survives(k, s);
      SurvivesHere(k, s, UserOf(k'.user, s));
    }
  }

  lemma ReloadNeeds(k: Kconfig, e: Entries, visits: seq<nat>, s: Symbol)
    requires IsComplete(k, e, visits) && Ranked(Reloaded(k, e, visits))
    requires SameValues(k, Reloaded(k, e, visits))
    ensures Survives(k, s)
  {
    var k' := Reloaded(k, e, visits);
    if s in k.graph {
      assert RankedAt(k, s);
      CalcIsFixpoint(k', s);
      forall x ensures AllVals(k)(x) == AllVals(k')(x) { assert SameValue(k, k', x); }
      assert SameValue(k, k', s);
      CalcDeclAgrees(s, k.graph[s], UserOf(k'.user, s), AllVals(k), AllVals(k'), k.modules);
      LoadedAt(k, e, visits, s);
      SurvivesHere(k, s, UserOf(k'.user, s));
    }
  }

  ghost predicate AllSurvive(k: Kconfig)
    requires Ranked(k)
  {
    forall s :: Survives(k, s)
  }

  ghost predicate SameValue(k: Kconfig, k': Kconfig, s: Symbol)
    requires Ranked(k) && Ranked(k')
  {
    Calc(k', s) == Calc(k, s)
  }

  ghost predicate SameValues(k: Kconfig, k': Kconfig)
    requires Ranked(k) && Ranked(k')
  {
    forall s :: SameValue(k, k', s)
  }

  /** Loading what was written gives every symbol its value back if and only if all of
      them survive. */
  lemma ReloadIff(k: Kconfig, e: Entries, visits: seq<nat>)
    requires IsComplete(k, e, visits)
    ensures Ranked(Reloaded(k, e, visits))
    ensures SameValues(k, Reloaded(k, e, visits)) <==> AllSurvive(k)
  {
    var k' := Reloaded(k, e, visits);
    ReloadedIsRanked(k, e, visits);
    if AllSurvive(k) {
      forall s ensures SameValue(k, k', s) { ReloadKeeps(k, e, visits, s); }
    }
    if SameValues(k, k') {
      forall s ensures Survives(k, s) { ReloadNeeds(k, e, visits, s); }
    }
  }

  /** The settings loaded are those that reading the text of the file gives. */
  lemma FileReloads(k: Kconfig, e: Entries, visits: seq<nat>, types: map<string, SymbolType>)
    requires Ranked(k) && ConfWrite.Sized(e, visits) && IsGood(types, k.graph, k.modules, Document(k, e, visits))
    ensures var text := FileText(k.graph, k.modules, Document(k, e, visits));
            Reloaded(k, e, visits).user == Loaded(k.graph, ReadText(types, map[], text))
  {
    var text := FileText(k.graph, k.modules, Document(k, e, visits));
    ReadDocument(types, k.graph, k.modules, Document(k, e, visits), "");
    assert text + "" == text;
  }

  /** The symbol of HighDefault, the only entry of its menu, is worth y until the
      configuration is written and loaded, then m. */
  lemma ReloadCanLose()
    ensures var k, e := HighDefault(), Entries([Some(TRI_A)], [None], {});
            && IsComplete(k, e, [0]) && Ranked(Reloaded(k, e, [0]))
            && Calc(k, TRI_A).tri == YES && Calc(Reloaded(k, e, [0]), TRI_A).tri == MOD
            && !SameValues(k, Reloaded(k, e, [0]))
  {
    var k, e := HighDefault(), Entries([Some(TRI_A)], [None], {});
    HighDefaultIsHigh();
    assert e.sym[[0][0]] == Some(TRI_A) && Entered(e, [0], TRI_A);
    assert IsComplete(k, e, [0]);
    ReloadIff(k, e, [0]);
    LoadedAt(k, e, [0], TRI_A);
    SettledAtMod(Reloaded(k, e, [0]));
    assert !SameValue(k, Reloaded(k, e, [0]), TRI_A);
  }
}
