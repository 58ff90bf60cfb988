# Verification models for the atbm wifi driver

This directory models three parts of the repository in Dafny and proves what they
promise.

**The Kconfig engine** (`atbm_kconf/`). A configuration is a set of symbols worth no,
mod or yes, tied together by dependency expressions over min, max and `2 - x`.

- *Expressions* (`Expr`, `Equality`, `Reflexivity`, `Transform`, `Joins`, `Paths`,
  `Likeness`, `Dups`, `DupsLaws`, `CutLaws`, `Simplifier`). The simplifier of `expr.c`, with its pairs of
  `struct expr **` as paths into the tree it rewrites. All statements about values hold in
  every *well-typed environment*: y, m and n are worth themselves, boolean symbols are
  never mod, the string of a boolean or tristate symbol is the letter of its value, all
  other symbols are worth no, and distinct constants have distinct strings.
  `SymbolValue.CalcIsWellTyped` shows that the values the engine computes form such an
  environment.
- *Printing and parsing* (`Grammar`, `RoundTrip`). The printer as a list of tokens, and the
  LR automaton of the generated parser, state by state, restricted to expressions, with
  the symbol table in which it looks up plain and quoted words.
- *Symbols* (`SymbolGraph`, `CheckDeps`, `SymbolValue`, `Evaluator`,
  `ValueLaws`, `Choice`). The search
  for recursive dependencies; the value of every symbol as a recursive function; the
  evaluator that keeps values in the symbols and marks them valid; settings; choices.
- *Menus* (`Sequences`, `Forests`, `MenuTree`, `MenuDeps`, `MenuConds`,
  `MenuSelects`, `SelectLaws`, `Nesting`, `MenuFinalize`).
  `menu_finalize` on explicit `next`, `list` and `parent` pointers: dependencies spread
  downwards, entries are nested below the symbol they depend on, and what hangs below an
  entry without a prompt is raised. `ConfParse` joins this to the search for recursion.
- *The `.config` file* (`ConfWrite`, `ConfText`, `Numbers`, `ConfLine`, `ConfRead`, `ConfRoundTrip`,
  `SaveReload`). The walk that writes it, the reader with its line buffer, and what
  survives writing and loading.

**A-MSDU reception** (`Octets`, `AmsduFormat`, `Amsdu`; `hal_apollo/ieee80211_atbm_skb.c`). Splitting
an aggregate as defined in section 8.3.2.2 of IEEE Std 802.11-2012.

**SDIO transmission without confirmations** (`SdioTx`; `hal_apollo/bh_sdio.c`). Credits in
32-bit counters, packing frames into one transfer, writing it with retries.

Code that changes state is modelled by classes and loops proved against functions on
values; the laws are proved about these functions.

## What is not as one might expect

The proofs also pin down where the code falls short of its intention, wherever possible
with the exact condition:

- `expr_print` does not print quotes, so a quoted constant is read back as the symbol of
  that name. An expression survives printing and parsing if and only if all its symbols are
  found again under their names, hence, quoted constants being the only ones that are not,
  if and only if it mentions none (`RoundTrip.PrintThenParse`,
  `RoundTrip.PrintThenParseIffUnquoted`, `RoundTrip.QuotedIsReadAsSymbol`).
- `expr_eliminate_dups` may change a value that is mod (`Simplifier.SimplifyLosesMod`); it
  never changes any other value (`Simplifier.EliminateDups`), and each single cut is exact
  if and only if the value is not mod (`DupsLaws.CutIsExact`).
- `expr_eq` finds operands in any order and grouping, as long as no chain inside them has y or
  n as an operand (`Likeness.ExprEqIff`, `Likeness.PermutedIsEqual`). With such constants it
  is not even transitive, and the order of operands can decide
  (`Likeness.EqualIsNotTransitive`, `Likeness.PermutedCanDiffer`).
- `expr_depends_symbol` is a sound test for exactly the symbols with a tristate value; for
  a string symbol it may succeed although the expression holds without it
  (`Transform.DependsSoundIffLogical`).
- `expr_trans_compare(e, E_UNEQUAL, n)` computes the two-valued reading of `e`, in which a
  symbol counts unless it is no and the connectives are Boolean. It says whether `e` is no
  if and only if that reading does (`Nesting.CompareIsPromoted`, `Nesting.CompareIsExact`);
  a negated mod is one case where it does not (`Nesting.CompareOfNegation`). So an entry can
  be nested below a symbol and be in reach although the symbol's prompt is not
  (`Nesting.NestedCanBeInReach`).
- `sym_check_deps` reports recursion whenever there is any, but always returns NULL at the
  end, so `conf_parse` never counts an error (`CheckDeps.CheckAll`).
- `sym_set_tristate_value` leaves the cache alone when the new setting equals the current
  value, which is right if and only if the setting would take effect
  (`Evaluator.SymbolTable.SetTristateValue`, `Evaluator.KeptCacheCanBeWrong`).
- In a boolean choice the picked member is yes and all other visible members are no if and
  only if that is what each member visible at m is worth by itself; a tristate member can
  stay no although it is picked (`Choice.ExactlyOneMember`,
  `Choice.TristateMemberCanStayNo`).
- Writing the configuration and loading it restores all values if and only if no visible
  symbol stands above both its visibility and what selects it, which a default can bring
  about, and no number ends in a carriage return (`SaveReload.ReloadIff`,
  `SaveReload.ReloadCanLose`). A number is restored if and only if it is valid, so the empty
  value of a visible int or hex symbol is not (`ConfRoundTrip.RestoredIff`).
- The heading of a menu is read back as a setting if and only if it begins like the line
  for a declared boolean or tristate symbol that is not set (`ConfRoundTrip.HarmlessIff`,
  `ConfRoundTrip.HeadingCanUnset`).
- A frame lost after the last retry costs its credit for good (`SdioTx.RunIsSafe`).
- An 802.3 frame with a length field survives encapsulation and conversion if and only if
  the field equals its length and its payload does not look encapsulated
  (`AmsduFormat.ConvertEncapsulated`). Converting a payload and encapsulating the frame gives
  the payload back if and only if its header is one that the sending side would choose
  (`AmsduFormat.EncapsulateConverted`).
- The test for space in the device compares an int with a u32, so a counter too old for what
  was sent since would pass for plenty of space (`SdioTx.SpaceTestIff`).

## Model

| member | source | states |
|---|---|---|
| Equality.EliminateYn | atbm_kconf/expr.c:231-312 | no constant operand is left; the tree shrinks exactly if there was one, and is otherwise returned as it is |
| Equality.EliminateYnValue | atbm_kconf/expr.c:231-312 | same value, also where symbols are mod |
| Equality.CancelPairs | atbm_kconf/expr.c:130-162 | terminates by total size and call rank; neither side grows, and each stays a chain of the same operator |
| Equality.CancelPairsSound | atbm_kconf/expr.c:130-162 | what was cancelled had one value on both sides: both old values are the new ones combined with it |
| Equality.EliminateEqSound | atbm_kconf/expr.c:164-187 | both old values are one monotone function of the new ones, for any nesting of operators |
| Equality.ExprEqSound | atbm_kconf/expr.c:189-229 | expressions found equal have equal values in every well-typed environment |
| Reflexivity.ExprEqReflexive | atbm_kconf/expr.c:189-229 | every expression is found equal to itself |
| Likeness.ExprEqIff | atbm_kconf/expr.c:189-229 | without y or n as operands, two expressions are found equal if and only if they differ only in the order and the grouping of operands, at any depth |
| Likeness.ChainsEqual | atbm_kconf/expr.c:204-213 | with y and n among the operands of the chains themselves: if and only if n (y in a disjunction) decides both, or neither and they have the same other operands |
| Likeness.PermutedIsEqual | atbm_kconf/expr.c:130-187 | chains whose operands are permutations of each other are found equal, if no operand has y or n inside |
| Likeness.SwappedIsEqual | atbm_kconf/expr.c:130-187 | in particular a chain and the same with its halves swapped |
| Likeness.CancelAll | atbm_kconf/expr.c:130-162 | of two chains exactly what both have is cancelled, as often as both have it |
| Likeness.ExtractAll | atbm_kconf/expr.c:826-875 | exactly what both have goes into the common chain, as often as both have it |
| Likeness.EqualIsNotTransitive | atbm_kconf/expr.c:204-213 | `S && T` and `(S \|\| n) && (T \|\| n)` are both found equal to `S && (T \|\| n)`, but not to each other |
| Likeness.PermutedCanDiffer | atbm_kconf/expr.c:130-187 | so a disjunction of the three is not found equal to every permutation of itself |
| Transform.TransformExpr | atbm_kconf/expr.c:636-771 | ends although De Morgan steps enlarge the tree: a weight that doubles at NOT never grows |
| Transform.TransformIsNnf | atbm_kconf/expr.c:636-771 | the result is in negation normal form: NOT stands over symbols other than y, m and n only, and no boolean symbol is compared with one of these |
| Transform.TransformIdempotent | atbm_kconf/expr.c:636-771 | a second pass changes nothing; the fixed points are exactly the normal forms |
| Transform.TransformValue | atbm_kconf/expr.c:636-771 | same value in every well-typed environment |
| Transform.TransBoolValue | atbm_kconf/expr.c:317-341 | the result is no exactly when the original is, and never worth more |
| Transform.TransBoolIff | atbm_kconf/expr.c:317-341 | no tristate symbol is tested for `!= n` any more; exactly the expressions without such a test stay as they are |
| Transform.TransBoolVisibility | atbm_kconf/symbol.c:193-204 | over any list of prompts, the visibility after the promotion of mod is unchanged by expr_trans_bool |
| Transform.ContainsIsMention | atbm_kconf/expr.c:773-795 | true exactly for the symbols the expression mentions |
| Exprs.ValueAgrees | atbm_kconf/expr.c:938-977 | symbols that an expression does not mention do not matter to its value |
| Transform.DependsIff | atbm_kconf/expr.c:797-824 | found if and only if an operand of the outermost conjunction is the symbol, `= y`, `= m` or `!= n` of it |
| Transform.DependsNeeds | atbm_kconf/expr.c:797-824 | an expression found to depend on a symbol is no where the symbol is no |
| Transform.DependsSoundIffLogical | atbm_kconf/expr.c:797-824 | the test is sound for a symbol if and only if its tristate value is meaningful; for others there is a refuting expression and environment |
| Joins.Join | atbm_kconf/expr.c:346-502 | a join is no larger than its first operand and negates nothing but symbols if that did |
| Joins.JoinValue | atbm_kconf/expr.c:346-502 | a join is worth the two operands combined, in every well-typed environment |
| Joins.TestsJoin | atbm_kconf/expr.c:346-502 | which comparisons of a tristate symbol with y, m and n are joined: in a disjunction two for equality, in a conjunction any two not both for equality |
| Joins.OppositeTestsJoin | atbm_kconf/expr.c:456-502 | of a tristate symbol, a test for equality with a constant and one for inequality: in a conjunction only |
| Joins.SymbolAndTestJoin | atbm_kconf/expr.c:410-450 | a symbol and a comparison of it, in either order: in a conjunction with `= y`, `!= n` or `!= m` |
| Joins.SymbolAndNegationJoin | atbm_kconf/expr.c:394-398 | a boolean symbol or its negation is y; a tristate one is not joined |
| Joins.OthersJoin | atbm_kconf/expr.c:346-502 | chains, and operands about different symbols, are joined only if equal |
| Joins.ExtractEqSound | atbm_kconf/expr.c:826-875 | the common part grows by exactly what both sides lose |
| Joins.ExtractCommonValue | atbm_kconf/expr.c:848-875 | both expressions are the common part combined with what is left of them |
| DupsLaws.Dups1Value | atbm_kconf/expr.c:504-554 | merging pairs of operands anywhere along a chain keeps the value exactly |
| DupsLaws.CutIsExact | atbm_kconf/expr.c:556-610 | replacing an operand that contradicts another keeps the value if and only if that is not mod |
| DupsLaws.Dups2Decides | atbm_kconf/expr.c:556-610 | the pass keeps every value that is not mod |
| DupsLaws.Dups1Count | atbm_kconf/expr.c:504-554 | counted changes leave a constant operand, and none counted means none made |
| DupsLaws.Dups2Count | atbm_kconf/expr.c:556-610 | the same for the second pass |
| DupsLaws.NoMergeMeansDupFree | atbm_kconf/expr.c:504-554 | the pass counts no change if and only if no two operands of any chain of the tree can be joined; then it leaves the tree as it is |
| CutLaws.ContradictsIff | atbm_kconf/expr.c:572-609 | an operand is cut if and only if the part of the chain it is held against has every operand of its negation |
| CutLaws.NoCutMeansCutFree | atbm_kconf/expr.c:556-610 | the second pass counts no change if and only if no operand of any chain is contradicted by another part of its chain; then it leaves the tree as it is |
| DupsLaws.CutLosesMod | atbm_kconf/expr.c:556-610 | `(A \|\| B) && (!A && !B)` at A = m, B = n is worth m, and n after the second pass |
| Simplifier.SimplifyLosesMod | atbm_kconf/expr.c:612-634 | and n after the whole of expr_eliminate_dups |
| Simplifier.SimplifyRefines | atbm_kconf/expr.c:612-634 | its result, as a function of the expression, keeps every value that is not mod |
| Simplifier.Rewriter.EliminateDups1 | atbm_kconf/expr.c:504-554 | the recursion over two pointers into one tree computes Dups1 and adds its count to trans_count |
| Simplifier.Rewriter.EliminateDups2 | atbm_kconf/expr.c:556-610 | likewise Dups2 |
| Simplifier.Rewriter.CutOperand | atbm_kconf/expr.c:572-609 | likewise the search for an operand that contradicts this one |
| Simplifier.EliminateDups | atbm_kconf/expr.c:612-634 | the loop ends; the result keeps every value that is not mod, is no larger, and has no operands left to join or to cut |
| Simplifier.SimplifyIdempotent | atbm_kconf/expr.c:612-634 | simplifying again changes nothing |
| Simplifier.ExactWithoutMod | atbm_kconf/expr.c:612-634 | in two-valued environments the simplified expression has the very value of the original |
| Grammar.Parser.ParseTokens | atbm_kconf/zconf.tab.c:1988-2029 | the LR loop, which enters the words it meets into the symbol table, computes the automaton's result on any tokens; no later lookup changes |
| Grammar.EnterKeepsLooks | atbm_kconf/symbol.c:786-825 | entering a name changes the result of no lookup |
| Grammar.StepDecreases | atbm_kconf/zconf.tab.c:621-765 | every shift or reduction lowers a measure, so parsing ends on any input |
| Grammar.NormRegroups | atbm_kconf/expr.c:1053-1098 | re-association changes only the grouping: the operands of every chain stay, in order |
| RoundTrip.ParseOfPrint | atbm_kconf/expr.c:979-1098 | the printed tokens of any expression are read back as that expression, up to the grouping of && and \|\|, with every symbol replaced by what its name is looked up as: the parentheses are adequate |
| RoundTrip.PrintThenParse | atbm_kconf/expr.c:1053-1098 | the expression itself comes back if and only if all its symbols are found under their names |
| RoundTrip.PrintThenParseIffUnquoted | atbm_kconf/zconf.tab.c:2021-2029 | given that for the other symbols, if and only if it mentions no quoted constant |
| RoundTrip.PrintThenParseValue | atbm_kconf/expr.c:1053-1098 | the value comes back if no quoted text is the name of a declared symbol |
| RoundTrip.QuotedIsReadAsSymbol | atbm_kconf/zconf.tab.c:2021-2029 | `A = "B"` is read back as `A = B`, another expression with another value |
| RoundTrip.AndBeforeOr | atbm_kconf/zconf.tab.c:2015-2019 | `a \|\| b && c` is read as `a \|\| (b && c)` |
| RoundTrip.AndBeforeLaterOr | atbm_kconf/zconf.tab.c:2015-2019 | `a && b \|\| c` as `(a && b) \|\| c` |
| RoundTrip.NotBeforeAnd | atbm_kconf/zconf.tab.c:2005-2010 | `!a && b` as `(!a) && b` |
| SymbolGraph.OrderedIsAcyclic | atbm_kconf/symbol.c:1121-1153 | an order in which every symbol comes after what it depends on leaves no cycle |
| CheckDeps.Checker.PrintRecursive | atbm_kconf/symbol.c:1018-1088 | what is reported is the end of the stack from the symbol met again on |
| CheckDeps.Checker.CheckSymbol | atbm_kconf/symbol.c:1192-1224 | flags and stack are restored; unless a recursion was reported, the symbol and all it depends on are finished |
| CheckDeps.Checker.CheckSymDeps | atbm_kconf/symbol.c:1121-1153 | the same for the dependencies of a symbol that lies on the stack |
| CheckDeps.CheckAll | atbm_kconf/zconf.tab.c:2280-2283 | every report is a cycle; nothing is reported if and only if the graph is acyclic, and then symbols finish in dependency order; no error is ever counted |
| SymbolValue.CheckedIsRanked | atbm_kconf/symbol.c:1121-1153 | after a search without reports, evaluation is well-founded, if the direct dependencies, but for constants, are among the conditions searched |
| ConfParse.DirDepIsSearched | atbm_kconf/menu.c:295-311 | which they are once the menu tree is finalized: the property that every entry of a symbol has without a condition of its own shows all that the entry depends on |
| ConfParse.FinalizedIsRanked | atbm_kconf/zconf.tab.c:2279-2283 | so the order of a search without reports, on the symbols of a finalized menu tree, is one in which every evaluation is well-founded |
| ConfParse.FinishParse | atbm_kconf/zconf.tab.c:2279-2283 | end to end: if nothing is reported after finalizing and searching, no evaluation is circular, whatever the settings; otherwise there is a cycle |
| SymbolValue.CalcIsFixpoint | atbm_kconf/symbol.c:292-411 | the recursive values satisfy the equations of sym_calc_value at all symbols at once |
| SymbolValue.CalcIsWellTyped | atbm_kconf/symbol.c:292-411 | they form a well-typed environment |
| SymbolValue.NeverBelowRevDep | atbm_kconf/symbol.c:337-374 | a symbol is never worth less than the symbols that select it demand |
| SymbolValue.SettingNotFeltBelow | atbm_kconf/symbol.c:481-515 | a new setting changes no symbol of lower rank |
| SymbolValue.SettingTakesEffect | atbm_kconf/symbol.c:337-374 | exactly which settings become the value |
| ValueLaws.LogicalLaw | atbm_kconf/symbol.c:331-375 | what a boolean or tristate symbol is worth, in terms of its properties alone: its setting as far as the greatest prompt condition goes, or else its first default whose condition is not no, as far as that condition and its expression go; or what selects it, if more |
| ValueLaws.TextLaw | atbm_kconf/symbol.c:376-395 | an int, hex or string symbol: its setting if a prompt is in reach, or else the text of the symbol that its first applicable default names |
| ValueLaws.VisibleIs | atbm_kconf/symbol.c:193-204 | the visibility is the greatest condition of any prompt, mod promoted where it has to be |
| ValueLaws.RevDepIs | atbm_kconf/symbol.c:217-225 | rev_dep: what the symbols that select this one demand, yes instead of mod while it counts as boolean |
| ValueLaws.DirDepIs | atbm_kconf/symbol.c:207-216 | dir_dep: yes without dependencies, and yes instead of mod |
| ValueLaws.WrittenIff | atbm_kconf/symbol.c:331-395 | SYMBOL_WRITE: a prompt is in reach, or a default applies, or a boolean or tristate symbol is selected; and it is not generated |
| Evaluator.SymbolTable.CalcExpr | atbm_kconf/expr.c:938-977 | the value in the environment of recursive values, while valid symbols keep theirs |
| Evaluator.SymbolTable.CalcVisibility | atbm_kconf/symbol.c:188-226 | visible, dir_dep and rev_dep as the recursive values give them |
| Evaluator.SymbolTable.CalcLogical | atbm_kconf/symbol.c:331-375 | value and SYMBOL_WRITE of a boolean or tristate symbol |
| Evaluator.SymbolTable.CalcText | atbm_kconf/symbol.c:376-395 | value and SYMBOL_WRITE of an int, hex or string symbol |
| Evaluator.SymbolTable.CalcValue | atbm_kconf/symbol.c:292-411 | the symbol becomes valid with its recursive value; no valid symbol changes; SYMBOL_WRITE is right on all that became valid |
| Evaluator.SymbolTable.Evaluate | atbm_kconf/symbol.c:292-411 | the same for a call from outside, on any state of the cache that is right |
| Evaluator.SymbolTable.EvaluateAll | atbm_kconf/symbol.c:292-411 | calls in any order leave the recursive value in every symbol called for |
| Evaluator.SymbolTable.ClearAllValid | atbm_kconf/symbol.c:430-441 | only the flag SYMBOL_VALID changes, and a change counts |
| Evaluator.SymbolTable.SetTristateValue | atbm_kconf/symbol.c:481-515 | accepted if and only if it is the value already, or the symbol is visible beyond what selects it and the setting would become its value; an accepted change takes effect; the cache stays right, for an equal value if and only if that takes effect; SYMBOL_WRITE stays right with it |
| Evaluator.CacheSurvivesIff | atbm_kconf/symbol.c:481-515 | keeping the cache for a setting equal to the value is right if and only if the setting takes effect |
| Evaluator.KeptCacheCanBeWrong | atbm_kconf/symbol.c:481-515 | a tristate symbol visible at m with the default y, set to y: accepted, the cache is kept, and its value is m |
| Evaluator.FlagsUnfelt | atbm_kconf/symbol.c:481-515 | where it takes effect, SYMBOL_WRITE stays right on every symbol |
| Choice.ChoiceGroup.ChoiceDefault | atbm_kconf/symbol.c:234-258 | the first applicable and visible default, else the first visible member |
| Choice.ChoiceGroup.CalcMembers | atbm_kconf/symbol.c:260-276 | all members' visibilities, and whether the user set all that are visible |
| Choice.ChoiceGroup.CalcChoice | atbm_kconf/symbol.c:260-290 | the user's pick if visible, else the default; no if there is none; what becomes of SYMBOL_DEF_USER |
| Choice.PickIs | atbm_kconf/symbol.c:234-290 | the user's choice if visible; else the target of the first default that holds and whose target is visible; else the first visible member |
| Choice.HiddenMember | atbm_kconf/symbol.c:333-375 | a member that is not visible is worth its default, whoever is picked |
| Choice.PickIsVisible | atbm_kconf/symbol.c:234-290 | what is picked is visible, and nothing is picked only if no member is visible |
| Choice.ExactlyOneMember | atbm_kconf/symbol.c:333-375 | in a choice with a visible member, the pick is yes and all other visible members no if and only if that is what the members visible at m are worth by themselves; then one is yes if and only if the pick is a member; members that cannot be mod are never visible at m |
| Choice.TristateMemberCanStayNo | atbm_kconf/symbol.c:333-335 | a member visible only at m stays no although it is picked |
| Nesting.CompareIsDecided | atbm_kconf/expr.c:877-936 | a comparison with n is never worth mod |
| Nesting.CompareIsPromoted | atbm_kconf/expr.c:877-936 | in every environment it computes the two-valued reading of the expression |
| Nesting.CompareIsExact | atbm_kconf/expr.c:877-936 | it says whether the expression is no if and only if that reading does |
| Nesting.NoNegatedModReadsRight | atbm_kconf/expr.c:877-936 | which it does, for one, where no negated part is mod |
| Nesting.CompareOfNegation | atbm_kconf/expr.c:908-909 | for a negated symbol it does so if and only if the symbol is not mod, for a doubly negated one always |
| Nesting.Reduced | atbm_kconf/menu.c:322-324 | the reduced comparison of a prompt has the comparison's value exactly, although expr_eliminate_dups may change values that are mod |
| Nesting.ShouldNest | atbm_kconf/menu.c:327-341 | exactly the entries that qualify; these mention the symbol, and depend on it, or the comparison of their condition with n is at most that of the prompt's condition in every environment |
| Nesting.WithoutConditionIff | atbm_kconf/menu.c:327-341 | below a symbol whose prompt has no condition goes exactly what mentions it |
| Nesting.CancelsIff | atbm_kconf/menu.c:332-341 | of two conjunctions, the test is passed if and only if the entry's has every operand of the prompt's, in any order |
| Nesting.NestedIsOutOfReach | atbm_kconf/menu.c:327-344 | a nested entry that depends on the symbol is no where the symbol is; any other is out of reach where the prompt is, in the two-valued reading, and in reach nevertheless only where that reading is wrong about one of the two |
| Nesting.ExampleQualifies | atbm_kconf/menu.c:327-341 | the entry with the condition `!A && !S` passes the test for S with the prompt condition `A = n` |
| Nesting.NestedCanBeInReach | atbm_kconf/menu.c:327-344 | it goes below S and is in reach where A is m and S is n, and the prompt of S is not |
| MenuDeps.Conjoin | atbm_kconf/menu.c:295-297 | the simplified conjunction keeps every value that is not mod, with either part missing |
| MenuDeps.ConjunctionIsSimple | atbm_kconf/menu.c:295-297 | and has no operands left to join or to cut |
| MenuDeps.PropertyCondTests | atbm_kconf/menu.c:308-311 | the condition of a property of a symbol that is not tristate tests no tristate symbol for `!= n` |
| MenuDeps.ShowsItsEntry | atbm_kconf/menu.c:306-311 | a property without a condition of its own ends up mentioning every symbol that its entry's condition does |
| MenuDeps.SpreadProperty | atbm_kconf/menu.c:306-311 | a property's condition takes in its entry's: up to mod for tristate symbols; for others up to visibility, where the entry's negates only symbols |
| MenuConds.AllReach | atbm_kconf/menu.c:294-320 | which holds all the way down a tree if it holds at the top: every property of every entry is in reach as far as the entry's condition and its own were |
| MenuConds.ChildOutOfReach | atbm_kconf/menu.c:283-298 | the condition of a child ends up no where what is above it is no: a choice itself, else the prompt, else the entry |
| SelectLaws.DemandIs | atbm_kconf/menu.c:312-316 | what is added to rev_dep is the greatest of what any select below the root and any prompt of a symbol that is not optional asks for, and nothing else |
| SelectLaws.LeafDepsIs | atbm_kconf/menu.c:353 | what is added to dir_dep is the greatest of the conditions of the entries that had nothing below them |
| MenuSelects.SummedJoin | atbm_kconf/menu.c:312-316 | what two parts of a tree add to rev_dep and dir_dep is added by both together |
| MenuConds.AddSelectsValue | atbm_kconf/menu.c:312-316 | a symbol is selected as far as before or as far as an entry selecting it and its condition are yes |
| MenuConds.SettledJoin | atbm_kconf/menu.c:294-320 | conditions settled in two parts of a tree one after the other are settled in both |
| MenuTree.NestChain | atbm_kconf/menu.c:347-351 | the three assignments hang the chain of nested siblings below the entry |
| MenuTree.RaiseChain | atbm_kconf/menu.c:401-403 | the assignments splice the children of an entry into its own chain, behind it |
| MenuFinalize.Menus.SpreadEntry | atbm_kconf/menu.c:295-317 | entry and properties take in the parent's condition; what the entry selects is added to rev_dep |
| MenuFinalize.Menus.SpreadDeps | atbm_kconf/menu.c:294-318 | exactly the children of the entry do so |
| MenuFinalize.Menus.SelectByPrompt | atbm_kconf/menu.c:419-423 | exactly the symbol of the entry, if not optional, is selected at m as far as its prompt is visible |
| MenuFinalize.Menus.DependOn | atbm_kconf/menu.c:353 | dir_dep of the symbol takes in the entry's condition |
| MenuFinalize.Menus.AbsorbSiblings | atbm_kconf/menu.c:322-346 | the siblings up to the first that does not qualify are finalized and become children; each of them is recorded as having qualified |
| MenuFinalize.Menus.Lift | atbm_kconf/menu.c:355-405 | afterwards no child without a prompt has anything below it; children with a prompt keep theirs; document order and parent pointers stay right |
| MenuFinalize.Menus.Finalize | atbm_kconf/menu.c:262-424 | the chain from the entry on keeps its document order; all that ends up below it was finalized after it, once, in document order; no entry below it without a prompt has anything below; if it had no children, the entry behind those it took in does not qualify; nothing outside was touched |
| MenuFinalize.Menus.FinalizeAll | atbm_kconf/zconf.tab.c:2279 | of the whole tree: no entry is lost, doubled, reordered or finalized twice; every parent pointer names the menu whose list holds the entry; every entry and property has taken in the final condition of the entry that was above it, and is in reach as far as that and its own were, the root's prompt having no condition; rev_dep and dir_dep of every symbol have grown by exactly the selects, prompts and childless entries of the tree; every entry that was nested qualified; below the root only entries with a prompt have anything below them |
| MenuTree.MovesOkAt | atbm_kconf/menu.c:327-345 | every single move below a symbol was of an entry that qualifies under the final conditions |
| ConfWrite.EachSettingOnce | atbm_kconf/confdata.c:791-797 | a writable symbol that is no choice stands in the file once, however many entries it has; no other symbol does |
| ConfWrite.TitlesAreShown | atbm_kconf/confdata.c:779-790 | the headings are those of the entries without a symbol whose condition and visibility are not no, in order |
| ConfWrite.DocumentGrows | atbm_kconf/confdata.c:779-812 | what the first entries add stands before what later ones add |
| ConfWrite.EachSettingRight | atbm_kconf/confdata.c:791-797 | every line gives the recursive value of its symbol |
| ConfWrite.Writer.NextMenu | atbm_kconf/confdata.c:799-811 | the next entry in document order, found by list, next and parent alone |
| ConfWrite.Writer.IsVisible | atbm_kconf/menu.c:433-457 | for an entry without a symbol: both its conditions are not no |
| ConfWrite.Writer.WriteSetting | atbm_kconf/confdata.c:791-797 | a symbol is written at its first entry if it is writable, and its flag is cleared |
| ConfWrite.Writer.Walk | atbm_kconf/confdata.c:779-812 | the walk ends and visits every entry below the root once in document order |
| ConfWrite.Writer.Write | atbm_kconf/confdata.c:776-821 | the file is the document for these entries, whether or not a change is pending; afterwards none is |
| ConfText.UnescapeEscape | atbm_kconf/symbol.c:903-944 | unescaping inverts escaping, whatever follows the closing quote |
| ConfText.EscapePlain | atbm_kconf/symbol.c:903-944 | a string without quotes and backslashes is only put between quotes |
| ConfText.EscapedSize | atbm_kconf/symbol.c:910-922 | the first pass finds the length of the result plus one |
| ConfText.EscapeStringValue | atbm_kconf/symbol.c:903-944 | the buffer of that size holds the escaped string and its NUL, and no write leaves it |
| ConfText.UnescapeInPlace | atbm_kconf/confdata.c:153-166 | the moves within the line buffer leave the unescaped string before the closing quote, or there was none |
| ConfLine.StringValid | atbm_kconf/symbol.c:540-581 | accepts strings, decimal numbers without leading zeros, hexadecimal numbers, and y, m or n for the others, and nothing else |
| Numbers.DecimalIff | atbm_kconf/symbol.c:547-561 | the strings accepted for an int are the decimal notations of the integers, and `-0` |
| ConfRead.Reader.SetSymVal | atbm_kconf/confdata.c:120-183 | the setting made of a value of each type, or none; a symbol of type S_OTHER becomes a string with a value that has no quotes, while one in quotes is invalid for it |
| ConfRead.Reader.ReadLine | atbm_kconf/confdata.c:306-367 | cutting a line up in its buffer has the effect of what the line says, on settings and types |
| ConfRead.Reader.ReadSimple | atbm_kconf/confdata.c:281-367 | the settings after reading a file are those of its lines, in order, and no older ones |
| ConfRoundTrip.LineFormat | atbm_kconf/confdata.c:477-497 | the lines as they stand in the file, for each type and value |
| ConfRoundTrip.ParsePrinted | atbm_kconf/confdata.c:477-497 | a printed line is one line and is read as the same name and value |
| ConfRoundTrip.RestoredIff | atbm_kconf/confdata.c:120-183 | a value comes back if and only if it is valid for the symbol's type |
| ConfRoundTrip.HarmlessIff | atbm_kconf/confdata.c:308-340 | a heading changes no settings if and only if it does not begin like the line for a declared boolean or tristate symbol that is not set |
| ConfRoundTrip.HeadingCanUnset | atbm_kconf/confdata.c:308-340 | one that does unsets the symbol |
| ConfRoundTrip.ReadDocument | atbm_kconf/confdata.c:306-367 | reading a written file with harmless headings gives the settings of its lines |
| ConfRoundTrip.RoundTrip | atbm_kconf/confdata.c:730-812 | each setting of a file with distinct names is read back with its value if and only if that is valid |
| SaveReload.FileReloads | atbm_kconf/confdata.c:306-367 | loading by symbol is loading the text of the file by name |
| SaveReload.ReloadIff | atbm_kconf/confdata.c:730-812 | writing and loading gives all symbols their values back if and only if no visible symbol stands above both its visibility and what selects it, and no number loses a carriage return |
| SaveReload.ReloadCanLose | atbm_kconf/symbol.c:337-374 | a tristate symbol visible at m with the default y is worth y, and m after writing and loading |
| AmsduFormat.ConvertEncapsulated | hal_apollo/iface.c:819-831 | encapsulating an Ethernet frame and converting it back gives the frame, always for an EtherType, and exactly when for a length |
| AmsduFormat.EncapsulateConverted | hal_apollo/iface.c:819-831 | converting a payload and encapsulating the frame again gives it back, exactly for the headers that the sending side chooses and for lengths below an EtherType |
| Amsdu.SplitAggregate | hal_apollo/ieee80211_atbm_skb.c:587-653 | splitting an aggregate gives one converted frame for each subframe, in order |
| Amsdu.DeliveredIsAggregate | hal_apollo/ieee80211_atbm_skb.c:587-653 | whatever is delivered was an aggregate of subframes that fit, re-assembled byte for byte |
| Amsdu.DeliveredIff | hal_apollo/ieee80211_atbm_skb.c:587-657 | frames are delivered if and only if the bytes are such an aggregate and buffers can be allocated; a length that overruns delivers nothing |
| Amsdu.AggregateRoundTrip | hal_apollo/ieee80211_atbm_skb.c:562-657 | Ethernet frames that are encapsulated, aggregated and split come out as they went in |
| Amsdu.MakeFrame | hal_apollo/ieee80211_atbm_skb.c:631-648 | the pulls and pushes turn the payload into the converted frame |
| Amsdu.TakeSubframe | hal_apollo/ieee80211_atbm_skb.c:587-648 | one round of the loop takes one subframe off, or finds that all is to be dropped |
| Amsdu.AmsduTo8023s | hal_apollo/ieee80211_atbm_skb.c:562-657 | the loop ends on any input, with the frames of the split in distinct buffers or none |
| SdioTx.OffsetsApart | hal_apollo/bh_sdio.c:436-466 | frames of one transfer lie in disjoint regions, each a whole number of blocks |
| SdioTx.TakenIff | hal_apollo/bh_sdio.c:398-509 | how many frames a transfer takes: no frame before the last is a command or leaves too little room, and it ends only with such a frame or when frames or credits run out |
| SdioTx.StampedIs | hal_apollo/bh_sdio.c:421-463 | the length, low byte first, the sum of its bytes with the carry added back, and the sequence number beside the id |
| SdioTx.SucceedsIff | hal_apollo/hwio_sdio.c:340-366 | a transfer gets through if and only if one of its attempts up to the tenth does |
| SdioTx.RunIsSafe | hal_apollo/bh_sdio.c:266-293 | over every run the device holds at most numInpChBufs frames, and a lost frame costs a credit for good |
| SdioTx.Host.InputChannelEvent | hal_apollo/wsm.c:233-235 | a counter from the device, as it was at any time since the last one, keeps the credits right |
| SdioTx.SpaceTestIff | hal_apollo/bh_sdio.c:275-287 | whatever counter was read, the test is right if and only if no more credits were spent than it tells of: the comparison is unsigned |
| SdioTx.Host.HaveEnoughSpace | hal_apollo/bh_sdio.c:266-293 | true exactly if so many credits are left, and hw_bufs_free is never negative |
| SdioTx.FitsHasRoom | hal_apollo/bh_sdio.c:506-508 | frames no larger than a device buffer once aligned never leave the transfer buffer, whatever the credits |
| SdioTx.Host.PutFrame | hal_apollo/bh_sdio.c:419-467 | the frame, stamped with length, checksum and sequence number, stands in the buffer, and none before it is touched |
| SdioTx.Host.FillBuffer | hal_apollo/bh_sdio.c:392-509 | as many frames as there are credits and room for, up to the first command, each at its block-aligned place within the buffer, numbered consecutively |
| SdioTx.Host.DataWrite | hal_apollo/hwio_sdio.c:340-366 | true exactly if one of the ten attempts succeeds; buf_id_tx is the number of frames written modulo 64 |
| SdioTx.Host.TransmitRound | hal_apollo/bh_sdio.c:392-524 | one round is one step of the protocol in unbounded counters |
| SdioTx.Host.Handle | hal_apollo/bh_sdio.c:358-538 | every event is one step of the protocol |
| SdioTx.Host.Run | hal_apollo/bh_sdio.c:358-538 | any run of events and transfers follows the protocol |

## Left out

- Expressions: E_LIST, E_RANGE and E_NONE, sharing of subtrees and freeing of memory, the subtrees of expr_simplify_unmet_dep (only printed in a warning).
- The counter trans_count outside expr_eliminate_dups: expr_eq saves and restores it, and no other caller looks at it.
- Grammar.Parser.ParseTokens: tokens instead of characters, so names and quoted texts that are not single words are not considered, and only the part of the tables that expressions reach; symbols without a name, printed as a choice, are not parsed back.
- Symbols: choice members and ranges in the evaluator and in the search for recursion, the modules symbol as a symbol (its value is a parameter), environment symbols, change marks and warnings.
- SymbolValue.CheckedIsRanked: sym_check_deps does not visit `dir_dep`, so its symbols are assumed to be among the conditions that it does visit; ConfParse.FinalizedIsRanked proves this of finalized menu trees.
- ConfParse.FinishParse: the properties of a symbol are put in the order of its entries, the others behind them, which matters neither to the search nor to the ranking.
- Choice: the choice's own value and visibility are parameters.
- MenuFinalize.Menus.Finalize: what it does only for choices (inferring types, marking and listing the members, adding their dependency on a tristate choice), the checks that only warn, prompts without text.
- ConfWrite.Writer.Write: the opening comment, the temporary file and its renaming, menu_is_visible for entries with a symbol.
- Evaluator.SymbolTable.ClearAllValid: the modules symbol, recalculated there, is a parameter.
- ConfRead.Reader.ReadLine: a last line without a newline makes the source look behind its NUL; the byte there is assumed to be NUL. Files with NUL bytes, files other than the user's configuration, and settings of choices when a member is read are not modelled.
- ConfRoundTrip.RoundTrip: headings that unset a symbol are excluded, by the exact condition of HarmlessIff; so are newlines in values, which end a line.
- SaveReload.ReloadIff: configurations without choices, in which every symbol has a name of its own, and an entry if it is to be written, and no generated symbol with a prompt has a setting; the defconfig, autoconf and split writers.
- Amsdu.AmsduTo8023s: the optional 802.11 header in front, which calls into the kernel; allocation and the bytes behind a short frame are parameters.
- SdioTx.Host.FillBuffer: frames that would leave the transfer buffer, against which the source does nothing but warn, are excluded; events do not arrive while a transfer is being packed; the variant with blocks of 1536 bytes and a longer header.
- SdioTx.Host.InputChannelEvent: counters arrive in the order in which the device sent them; SdioTx.SpaceTestIff says what one that is too old does.
- SdioTx.RunIsSafe: the device is assumed to deal only with frames whose transfer succeeded.
- Files, terminals and environment, menu dialogs, the lexer, receive and block-ack code, SPI, firmware loading, timers and threads.
