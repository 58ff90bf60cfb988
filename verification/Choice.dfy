/** A choice group whose value is yes: which member is picked (sym_calc_choice,
    sym_choice_default) and what the members are worth (sym_calc_value). */
module Choice {
  import opened Tristates
  import opened Exprs
  import opened SymbolValue
  import opened Transform

  /** A member: its prompts' conditions, its own setting and default, and whether
      SYMBOL_DEF_USER is set on it. */
  datatype Member = Member(sym: Symbol, prompts: seq<Option<Expr>>, user: Tristate, default: Tristate, hasUser: bool)

  datatype Default = Default(condition: Option<Expr>, target: Symbol)

  /** `visible` after sym_calc_visibility. */
  function MemberVisible(m: Member, env: Env, modules: Tristate): Tristate {
    PromptsVisible(m.sym, m.prompts, env, modules)
  }

  /** The field `visible` of a symbol. */
  function Look(visible: map<Symbol, Tristate>, s: Symbol): Tristate {
    if s in visible then visible[s] else NO
  }

  /** sym_choice_default, first part: the first default that holds and whose target is visible. */
  function VisibleDefault(defaults: seq<Default>, visible: map<Symbol, Tristate>, env: Env): Option<Symbol> {
    if defaults == [] then None
    else if OptValue(defaults[0].condition, env) != NO && Look(visible, defaults[0].target) != NO then Some(defaults[0].target)
    else VisibleDefault(defaults[1..], visible, env)
  }

  /** Second part: the first visible member. */
  function FirstVisible(members: seq<Member>, visible: map<Symbol, Tristate>): Option<Symbol> {
    if members == [] then None
    else if Look(visible, members[0].sym) != NO then Some(members[0].sym)
    else FirstVisible(members[1..], visible)
  }

  /** sym_calc_choice: the user's pick if visible, else a default, else the first. */
  function Pick(user: Option<Symbol>, defaults: seq<Default>, members: seq<Member>,
                visible: map<Symbol, Tristate>, env: Env): Option<Symbol> {
    if user.Some? && Look(visible, user.value) != NO then user
    else
      var d := VisibleDefault(defaults, visible, env);
      if d.Some? then d else FirstVisible(members, visible)
  }

  /** sym_calc_value for a member, of a group that holds `pick`. */
  function MemberValue(m: Member, visible: Tristate, pick: Option<Symbol>, modules: Tristate): Tristate {
    if visible == YES then (if pick == Some(m.sym) then YES else NO)
    else
      var v := if visible != NO && m.hasUser then TriAnd(m.user, visible) else m.default;
      if !IsTristate(m.sym) || modules == NO then Promote(v) else v
  }

  class ChoiceGroup {
    const members: seq<Member>
    const defaults: seq<Default>
    const modules: Tristate
    /** `def[S_DEF_USER].val` and SYMBOL_DEF_USER of the choice symbol. */
    var user: Option<Symbol>
    var hasUser: bool
    /** The choice's `curr`, and the field `visible` of all symbols. */
    var tri: Tristate
    var val: Option<Symbol>
    var visible: map<Symbol, Tristate>

    constructor (ms: seq<Member>, ds: seq<Default>, mods: Tristate, u: Option<Symbol>, h: bool, v: map<Symbol, Tristate>)
      ensures members == ms && defaults == ds && modules == mods && user == u && hasUser == h
      ensures tri == YES && visible == v
    {
      members, defaults, modules, user, hasUser := ms, ds, mods, u, h;
      tri, val, visible := YES, None, v;
    }

    /** sym_choice_default. */
    method ChoiceDefault(env: Env) returns (r: Option<Symbol>)
      ensures r == Pick(None, defaults, members, visible, env)
    {
      var i := 0;
      while i < |defaults|
        invariant i <= |defaults|
        invariant VisibleDefault(defaults, visible, env) == VisibleDefault(defaults[i..], visible, env)
      {
        assert defaults[i..][1..] == defaults[i + 1..];
        if OptValue(defaults[i].condition, env) != NO && Look(visible, defaults[i].target) != NO {
          return Some(defaults[i].target);
        }
        i := i + 1;
      }
      i := 0;
      while i < |members|
        invariant i <= |members|
        invariant FirstVisible(members, visible) == FirstVisible(members[i..], visible)
      {
        assert members[i..][1..] == members[i + 1..];
        if Look(visible, members[i].sym) != NO { return Some(members[i].sym); }
        i := i + 1;
      }
      r := None;
    }

    /** The first loop of sym_calc_choice: the visibility of the members, and whether the
        user has set all that are visible. */
    method CalcMembers(env: Env) returns (flags: bool)
      requires forall i, j :: 0 <= i < j < |members| ==> members[i].sym != members[j].sym
      modifies this`visible
      ensures forall m :: m in members ==> m.sym in visible && visible[m.sym] == MemberVisible(m, env, modules)
      ensures forall s :: s in old(visible) && !IsMember(members, s) ==> s in visible && visible[s] == old(visible)[s]
      ensures forall s :: s in visible ==> s in old(visible) || IsMember(members, s)
      ensures flags <==> forall m :: m in members && visible[m.sym] != NO ==> m.hasUser
    {
      flags := true;
      var i := 0;
      while i < |members|
        invariant i <= |members|
        invariant forall s :: s in old(visible) && !IsMember(members, s) ==> s in visible && visible[s] == old(visible)[s]
        invariant forall s :: s in visible ==> s in old(visible) || IsMember(members, s)
        invariant forall j :: 0 <= j < i ==>
                    members[j].sym in visible && visible[members[j].sym] == MemberVisible(members[j], env, modules)
        invariant flags <==> forall j :: 0 <= j < i && visible[members[j].sym] != NO ==> members[j].hasUser
      {
        var m := members[i];
        assert IsMember(members, m.sym);
        visible := visible[m.sym := MemberVisible(m, env, modules)];
        if visible[m.sym] != NO { flags := flags && m.hasUser; }
        i := i + 1;
      }
    }

    /** sym_calc_choice, with the assignment of its result to `curr.val`. `env` holds
        the values of all other symbols and yes for the choice. */
    method CalcChoice(env: Env)
      requires forall i, j :: 0 <= i < j < |members| ==> members[i].sym != members[j].sym
      modifies this`visible, this`hasUser, this`tri, this`val
      ensures forall m :: m in members ==> m.sym in visible && visible[m.sym] == MemberVisible(m, env, modules)
      ensures forall s :: s in old(visible) && !IsMember(members, s) ==> s in visible && visible[s] == old(visible)[s]
      ensures forall s :: s in visible ==> s in old(visible) || IsMember(members, s)
      ensures val == Pick(user, defaults, members, visible, env)
      ensures tri == if val.None? then NO else old(tri)
      ensures hasUser <==> old(hasUser) && forall m :: m in members && visible[m.sym] != NO ==> m.hasUser
    {
      var flags := CalcMembers(env);
      hasUser := hasUser && flags;
      if user.Some? && Look(visible, user.value) != NO {
        val := user;
      } else {
        val := ChoiceDefault(env);
      }
      if val.None? { tri := NO; }
    }
  }

  ghost predicate IsMember(members: seq<Member>, s: Symbol) { exists m :: m in members && m.sym == s }

  lemma {:induction false} VisibleDefaultFacts(defaults: seq<Default>, visible: map<Symbol, Tristate>, env: Env)
    ensures var d := VisibleDefault(defaults, visible, env);
            d.Some? ==> Look(visible, d.value) != NO && exists i :: 0 <= i < |defaults| && defaults[i].target == d.value
  {
    if defaults != [] {
      VisibleDefaultFacts(defaults[1..], visible, env);
      var d := VisibleDefault(defaults[1..], visible, env);
      if d.Some? {
        var i :| 0 <= i < |defaults[1..]| && defaults[1..][i].target == d.value;
        assert defaults[i + 1].target == d.value;
      } else if VisibleDefault(defaults, visible, env).Some? {
        assert defaults[0].target == VisibleDefault(defaults, visible, env).value;
      }
    }
  }

  lemma {:induction false} FirstVisibleFacts(members: seq<Member>, visible: map<Symbol, Tristate>)
    ensures var f := FirstVisible(members, visible);
            && (f.Some? ==> Look(visible, f.value) != NO && IsMember(members, f.value))
            && (f.None? ==> forall m :: m in members ==> Look(visible, m.sym) == NO)
  {
    if members != [] {
      FirstVisibleFacts(members[1..], visible);
      assert members[0] in members;
      var f := FirstVisible(members[1..], visible);
      if f.Some? {
        var m :| m in members[1..] && m.sym == f.value;
        assert m in members;
      }
    }
  }

  /** Whoever is picked is visible, and belongs to the group if the user's pick and
      the defaults do. No one is picked only if no member is visible. */
  lemma PickIsVisible(user: Option<Symbol>, defaults: seq<Default>, members: seq<Member>,
                      visible: map<Symbol, Tristate>, env: Env)
    ensures var p := Pick(user, defaults, members, visible, env);
            && (p.Some? ==> Look(visible, p.value) != NO)
            && (p.None? ==> forall m :: m in members ==> Look(visible, m.sym) == NO)
            && (PicksInside(user, defaults, members) && p.Some? ==> IsMember(members, p.value))
  {
    VisibleDefaultFacts(defaults, visible, env);
    FirstVisibleFacts(members, visible);
  }

  /** The `i`-th default holds, and its target is visible. */
  predicate Offers(defaults: seq<Default>, visible: map<Symbol, Tristate>, env: Env, i: nat)
    requires i < |defaults|
  {
    OptValue(defaults[i].condition, env) != NO && Look(visible, defaults[i].target) != NO
  }

  lemma {:induction false} DefaultIsFirst(defaults: seq<Default>, visible: map<Symbol, Tristate>, env: Env, i: nat)
    requires i <= |defaults| && forall j :: 0 <= j < i ==> !Offers(defaults, visible, env, j)
    requires i < |defaults| ==> Offers(defaults, visible, env, i)
    ensures VisibleDefault(defaults, visible, env) == if i < |defaults| then Some(defaults[i].target) else None
  {
    if defaults != [] && i > 0 {
      assert !Offers(defaults, visible, env, 0);
      forall j | 0 <= j < i - 1 ensures !Offers(defaults[1..], visible, env, j) {
        assert !Offers(defaults, visible, env, j + 1);
      }
      DefaultIsFirst(defaults[1..], visible, env, i - 1);
    }
  }

  lemma {:induction false} MemberIsFirst(members: seq<Member>, visible: map<Symbol, Tristate>, i: nat)
    requires i <= |members| && forall j :: 0 <= j < i ==> Look(visible, members[j].sym) == NO
    requires i < |members| ==> Look(visible, members[i].sym) != NO
    ensures FirstVisible(members, visible) == if i < |members| then Some(members[i].sym) else None
  {
    if members != [] && i > 0 { MemberIsFirst(members[1..], visible, i - 1); }
  }

  /** Who is picked: the user's choice if visible; else the target of the first default that
      offers one, the `d`-th; else the first visible member, the `m`-th, if there is one. */
  lemma PickIs(user: Option<Symbol>, defaults: seq<Default>, members: seq<Member>,
               visible: map<Symbol, Tristate>, env: Env, d: nat, m: nat)
    requires d <= |defaults| && forall j :: 0 <= j < d ==> !Offers(defaults, visible, env, j)
    requires d < |defaults| ==> Offers(defaults, visible, env, d)
    requires m <= |members| && forall j :: 0 <= j < m ==> Look(visible, members[j].sym) == NO
    requires m < |members| ==> Look(visible, members[m].sym) != NO
    ensures Pick(user, defaults, members, visible, env) ==
      if user.Some? && Look(visible, user.value) != NO then user
      else if d < |defaults| then Some(defaults[d].target)
      else if m < |members| then Some(members[m].sym)
      else None
  {
    DefaultIsFirst(defaults, visible, env, d);
    MemberIsFirst(members, visible, m);
  }

  ghost predicate PicksInside(user: Option<Symbol>, defaults: seq<Default>, members: seq<Member>) {
    (user.Some? ==> IsMember(members, user.value)) && forall i :: 0 <= i < |defaults| ==> IsMember(members, defaults[i].target)
  }

  /** No member can be stuck at mod: the members are boolean, or modules are off. */
  predicate TwoValued(members: seq<Member>, modules: Tristate) {
    modules == NO || forall m :: m in members ==> !IsTristate(m.sym)
  }

  /** What a member visible at m is worth is left to its own setting or default: it is
      right if that happens to be yes for the pick, and no for any other. */
  predicate RightAtMod(m: Member, pick: Symbol) {
    (if m.hasUser then TriAnd(m.user, MOD) else m.default) == if m.sym == pick then YES else NO
  }

  /** Every visible member is yes or no according to whether it is the one picked. */
  ghost predicate OnlyPick(members: seq<Member>, visible: map<Symbol, Tristate>, pick: Symbol, modules: Tristate)
    requires forall m :: m in members ==> m.sym in visible
  {
    forall m :: m in members && visible[m.sym] != NO ==>
      MemberValue(m, visible[m.sym], Some(pick), modules) == if m.sym == pick then YES else NO
  }

  /** In a boolean group with a visible member someone is picked. The pick is yes and all
      other visible members no if and only if the members visible at m are right by
      themselves; then exactly one is yes if the pick belongs to the group, and none if
      it does not. Where no member can be mod, none is visible at m. */
  lemma ExactlyOneMember(user: Option<Symbol>, defaults: seq<Default>, members: seq<Member>,
                         visible: map<Symbol, Tristate>, env: Env, modules: Tristate)
    requires forall m :: m in members ==> m.sym in visible && visible[m.sym] == MemberVisible(m, env, modules)
    requires exists m :: m in members && visible[m.sym] != NO
    ensures var p := Pick(user, defaults, members, visible, env);
            && p.Some?
            && (OnlyPick(members, visible, p.value, modules)
                <==> forall m :: m in members && visible[m.sym] == MOD ==> RightAtMod(m, p.value))
            && (OnlyPick(members, visible, p.value, modules) ==>
                  ((exists m :: m in members && visible[m.sym] != NO && MemberValue(m, visible[m.sym], p, modules) == YES)
                   <==> IsMember(members, p.value)))
            && (PicksInside(user, defaults, members) ==> IsMember(members, p.value))
    ensures TwoValued(members, modules) ==> forall m :: m in members ==> visible[m.sym] != MOD
  {
    PickIsVisible(user, defaults, members, visible, env);
    var p := Pick(user, defaults, members, visible, env).value;
    forall m | m in members && visible[m.sym] != NO
      ensures MemberValue(m, visible[m.sym], Some(p), modules) == (if m.sym == p then YES else NO)
              <==> visible[m.sym] == MOD ==> RightAtMod(m, p)
    {
      if visible[m.sym] == MOD { assert IsTristate(m.sym) && modules != NO; }
    }
  }

  /** A member that is not visible is worth its default, whoever is picked. */
  lemma HiddenMember(m: Member, pick: Option<Symbol>, modules: Tristate)
    ensures MemberValue(m, NO, pick, modules) ==
      if m.default == MOD && (!IsTristate(m.sym) || modules == NO) then YES else m.default
  {}

  /** For example: visible as a module and not set by the user, the only member is picked
      but stays no. */
  lemma TristateMemberCanStayNo(env: Env)
    requires WellTyped(env)
    ensures var m := Member(Config(0, TristateType), [Some(Sym(SymMod))], NO, NO, false);
            var visible := map[m.sym := MemberVisible(m, env, YES)];
            && Pick(None, [], [m], visible, env) == Some(m.sym)
            && MemberValue(m, visible[m.sym], Some(m.sym), YES) == NO
            && !OnlyPick([m], visible, m.sym, YES)
  {
    var m := Member(Config(0, TristateType), [Some(Sym(SymMod))], NO, NO, false);
    assert PromptsValue(m.prompts, env) == MOD;
    assert FirstVisible([m], map[m.sym := MOD]) == Some(m.sym);
    assert m in [m];
  }
}
