/** Printing an expression as tokens (expr_print) and reading it back with the
    parser's shift-reduce automaton, restricted to the states for expressions. Words
    are looked up in the symbol table, quoted and plain ones differently. */
module Grammar {
  import opened Exprs
  import opened Equality
  import opened Reflexivity

  /** T_WORD, T_WORD_QUOTE, and the operators. */
  datatype Token =
    | Word(name: string) | QuotedWord(text: string)
    | EqualTok | UnequalTok | Open | Close | OrTok | AndTok | NotTok

  /** The symbol table: the symbols that are neither constants nor choices, by name, and
      which object a name gets if it has to be entered first. */
  datatype Table = Table(hash: map<string, Symbol>, alloc: string -> nat)

  /** sym_lookup(name, 0). */
  function Look(t: Table, name: string): Symbol {
    if name == "y" then SymYes
    else if name == "m" then SymMod
    else if name == "n" then SymNo
    else if name in t.hash then t.hash[name]
    else Config(t.alloc(name), UnknownType)
  }

  /** sym_lookup(name, SYMBOL_CONST). */
  function LookQuoted(name: string): Symbol {
    if name == "y" then SymYes else if name == "m" then SymMod else if name == "n" then SymNo else Quoted(name)
  }

  /** The table after the lookup: the name is entered. */
  function Enter(t: Table, name: string): Table {
    if name == "y" || name == "m" || name == "n" then t else t.(hash := t.hash[name := Look(t, name)])
  }

  /** Entering a name changes no later lookup, so one table speaks for the whole run. */
  lemma EnterKeepsLooks(t: Table, name: string, other: string)
    ensures Look(Enter(t, name), other) == Look(t, other)
  {}

  /** No constants in the table. */
  predicate IsTable(t: Table) { forall n :: n in t.hash ==> t.hash[n].Config? }

  /** `sym->name`: `names` gives it for declared symbols. */
  function NameOf(names: Symbol -> string, s: Symbol): string {
    match s
    case SymYes => "y"
    case SymMod => "m"
    case SymNo => "n"
    case Quoted(text) => text
    case Config(_, _) => names(s)
  }

  /** The expression types of expr.h, in their order. */
  datatype ExprType = NoneType | OrType | AndType | NotType | EqualType | UnequalType | ListType | SymType | RangeType

  function TypeOf(e: Expr): ExprType {
    match e
    case Sym(_) => SymType
    case Not(_) => NotType
    case Bin(op, _, _) => OpType(op)
    case Cmp(rel, _, _) => if rel == Equal then EqualType else UnequalType
  }

  function OpType(op: Op): ExprType { if op == AndOp then AndType else OrType }

  function OpToken(op: Op): Token { if op == AndOp then AndTok else OrTok }

  /** expr_compare_type, whose cases fall through. */
  function CompareType(t1: ExprType, t2: ExprType): int {
    if t1 == t2 then 0
    else match t1
      case EqualType => if t2.NotType? then 1 else FromNot(t2)
      case UnequalType => if t2.NotType? then 1 else FromNot(t2)
      case NotType => FromNot(t2)
      case AndType => FromAnd(t2)
      case OrType => FromOr(t2)
      case ListType => FromList(t2)
      case _ => -1
  }

  function FromNot(t2: ExprType): int { if t2.AndType? then 1 else FromAnd(t2) }

  function FromAnd(t2: ExprType): int { if t2.OrType? then 1 else FromOr(t2) }

  function FromOr(t2: ExprType): int { if t2.ListType? then 1 else FromList(t2) }

  function FromList(t2: ExprType): int { if t2.NoneType? then 1 else -1 }

  /** expr_print with the previous token `prev`: names only, never quotes. */
  function Print(names: Symbol -> string, e: Expr, prev: ExprType): seq<Token> {
    var body :=
      match e
      case Sym(s) => [Word(NameOf(names, s))]
      case Not(a) => [NotTok] + Print(names, a, NotType)
      case Cmp(rel, l, r) =>
        [Word(NameOf(names, l)), if rel == Equal then EqualTok else UnequalTok, Word(NameOf(names, r))]
      case Bin(op, l, r) => Print(names, l, OpType(op)) + [OpToken(op)] + Print(names, r, OpType(op));
    if CompareType(prev, TypeOf(e)) > 0 then [Open] + body + [Close] else body
  }

  /** The parser's stack, top first: symbols, expressions, tokens. */
  datatype Item = S(s: Symbol) | E(e: Expr) | T(t: Token)

  datatype Stack = Bottom | Push(top: Item, below: Stack)

  datatype Config = Running(stack: Stack, input: seq<Token>) | Accepted(e: Expr) | Rejected

  predicate IsWord(t: Token) { t.Word? || t.QuotedWord? }

  /** Rules 115 and 116. */
  function WordSymbol(t: Table, w: Token): Symbol
    requires IsWord(w)
  {
    if w.Word? then Look(t, w.name) else LookQuoted(w.text)
  }

  /** States 67, 68, 90, 91 and the state before an expression: a word, `(` or `!`. */
  predicate WantsOperand(st: Stack) {
    st.Bottom? || (st.top.T? && (st.top.t.Open? || st.top.t.NotTok? || st.top.t.OrTok? || st.top.t.AndTok?))
  }

  predicate IsRel(t: Token) { t.EqualTok? || t.UnequalTok? }

  /** One move of the automaton. The end of the input stands for T_EOL. */
  function Step(t: Table, st: Stack, input: seq<Token>): Config {
    if WantsOperand(st) then
      if input == [] then Rejected
      else if IsWord(input[0]) then Running(Push(S(WordSymbol(t, input[0])), st), input[1..])
      else if input[0].Open? || input[0].NotTok? then Running(Push(T(input[0]), st), input[1..])
      else Rejected
    else match st.top
      case S(r) =>
        (match st.below
         case Push(T(rel), Push(S(l), rest)) =>
           if IsRel(rel) then
             Running(Push(E(Cmp(if rel.EqualTok? then Equal else Unequal, l, r)), rest), input)
           else SymbolStep(r, st, input)
         case _ => SymbolStep(r, st, input))
      case T(tok) =>
        if IsRel(tok) then
          if input != [] && IsWord(input[0]) then Running(Push(S(WordSymbol(t, input[0])), st), input[1..])
          else Rejected
        else
          (match st.below
           case Push(E(e), Push(T(Open), rest)) => if tok.Close? then Running(Push(E(e), rest), input) else Rejected
           case _ => Rejected)
      case E(e) =>
        (match st.below
         case Push(T(NotTok), rest) => Running(Push(E(Not(e)), rest), input)
         case Push(T(AndTok), Push(E(l), rest)) => Running(Push(E(Bin(AndOp, l, e)), rest), input)
         case Push(T(OrTok), Push(E(l), rest)) =>
           if input != [] && input[0].AndTok? then Running(Push(T(AndTok), st), input[1..])
           else Running(Push(E(Bin(OrOp, l, e)), rest), input)
         case Push(T(Open), _) =>
           if input != [] && (input[0].Close? || input[0].OrTok? || input[0].AndTok?)
           then Running(Push(T(input[0]), st), input[1..]) else Rejected
         case Bottom =>
           if input == [] then Accepted(e)
           else if input[0].OrTok? || input[0].AndTok? then Running(Push(T(input[0]), st), input[1..])
           else Rejected
         case _ => Rejected)
  }

  /** State 70: a comparison is shifted, otherwise the symbol is an expression. */
  function SymbolStep(r: Symbol, st: Stack, input: seq<Token>): Config
    requires st.Push?
  {
    if input != [] && IsRel(input[0]) then Running(Push(T(input[0]), st), input[1..])
    else Running(Push(E(Sym(r)), st.below), input)
  }

  /** Symbols on the stack still have one reduction ahead of them. */
  function Load(st: Stack): nat {
    if st.Bottom? then 0 else (if st.top.S? then 2 else 1) + Load(st.below)
  }

  function Measure(c: Config): nat { if c.Running? then 3 * |c.input| + Load(c.stack) + 1 else 0 }

  lemma StepDecreases(t: Table, st: Stack, input: seq<Token>)
    ensures Measure(Step(t, st, input)) < Measure(Running(st, input))
  {
    if st.Push? && st.below.Push? {
      assert Load(st.below) == (if st.below.top.S? then 2 else 1) + Load(st.below.below);
    }
  }

  /** The whole run from a configuration. */
  function Run(t: Table, c: Config): Option<Expr>
    decreases Measure(c)
  {
    match c
    case Accepted(e) => Some(e)
    case Rejected => None
    case Running(st, input) =>
      StepDecreases(t, st, input);
      Run(t, Step(t, st, input))
  }

  function Parse(t: Table, input: seq<Token>): Option<Expr> { Run(t, Running(Bottom, input)) }

  ghost predicate SameLooks(t: Table, t': Table) { forall n :: Look(t', n) == Look(t, n) }

  lemma {:induction false} RunSame(t: Table, t': Table, c: Config)
    requires SameLooks(t, t')
    ensures Run(t', c) == Run(t, c)
    decreases Measure(c)
  {
    if c.Running? {
      StepDecreases(t, c.stack, c.input);
      assert Step(t', c.stack, c.input) == Step(t, c.stack, c.input) by {
        if c.input != [] && c.input[0].Word? { assert Look(t', c.input[0].name) == Look(t, c.input[0].name); }
      }
      RunSame(t, t', Step(t, c.stack, c.input));
    }
  }

  /** The parser, which enters the words it meets into the symbol table. */
  class Parser {
    var table: Table

    constructor (t: Table)
      ensures table == t
    {
      table := t;
    }

    /** The parser's loop. Every word is entered when it is shifted. */
    method ParseTokens(input: seq<Token>) returns (r: Option<Expr>)
      modifies this
      ensures r == Parse(old(table), input) && SameLooks(old(table), table)
      ensures old(table.hash.Keys) <= table.hash.Keys
    {
      var c := Running(Bottom, input);
      while c.Running?
        invariant SameLooks(old(table), table) && old(table.hash.Keys) <= table.hash.Keys
        invariant Run(old(table), c) == Parse(old(table), input)
        decreases Measure(c)
      {
        StepDecreases(table, c.stack, c.input);
        RunSame(old(table), table, c);
        var next := Step(table, c.stack, c.input);
        RunSame(old(table), table, next);
        if next.Running? && |next.input| < |c.input| && c.input[0].Word? {
          Entering(old(table), table, c.input[0].name);
          table := Enter(table, c.input[0].name);
        }
        c := next;
      }
      r := if c.Accepted? then Some(c.e) else None;
    }
  }

  lemma Entering(t0: Table, t: Table, name: string)
    requires SameLooks(t0, t)
    ensures SameLooks(t0, Enter(t, name))
  {
    forall n ensures Look(Enter(t, name), n) == Look(t0, n) { EnterKeepsLooks(t, name, n); }
  }

  /** The tree the parser builds: chains grow to the left. */
  function Norm(e: Expr): Expr
    decreases e, 0
  {
    match e
    case Sym(_) => e
    case Not(a) => Not(Norm(a))
    case Cmp(_, _, _) => e
    case Bin(op, l, r) => Graft(op, Norm(l), r)
  }

  /** The operands of `e` appended, one by one, to the chain `acc`. */
  function Graft(op: Op, acc: Expr, e: Expr): Expr
    decreases e, 1
  {
    if IsOp(op, e) then Graft(op, Graft(op, acc, e.left), e.right) else Bin(op, acc, Norm(e))
  }

  lemma {:induction false} NormValue(e: Expr, env: Env)
    ensures Value(Norm(e), env) == Value(e, env)
    decreases e, 0
  {
    match e
    case Not(a) => NormValue(a, env);
    case Bin(op, l, r) => NormValue(l, env); GraftValue(op, Norm(l), r, env);
    case _ =>
  }

  lemma {:induction false} GraftValue(op: Op, acc: Expr, e: Expr, env: Env)
    ensures Value(Graft(op, acc, e), env) == Apply(op, Value(acc, env), Value(e, env))
    decreases e, 1
  {
    if IsOp(op, e) {
      GraftValue(op, acc, e.left, env);
      GraftValue(op, Graft(op, acc, e.left), e.right, env);
      Regroup(op, Value(acc, env), Value(e.left, env), Value(e.right, env), Value(e.right, env));
    } else {
      NormValue(e, env);
    }
  }

  /** The operands, each read back in its own right. */
  function NormAll(s: seq<Expr>): seq<Expr> {
    if s == [] then [] else [Norm(s[0])] + NormAll(s[1..])
  }

  lemma {:induction false} NormAllConcat(a: seq<Expr>, b: seq<Expr>)
    ensures NormAll(a + b) == NormAll(a) + NormAll(b)
  {
    if a == [] {
      assert a + b == b;
    } else {
      assert (a + b)[0] == a[0] && (a + b)[1..] == a[1..] + b;
      NormAllConcat(a[1..], b);
    }
  }

  lemma {:induction false} GraftOperands(op: Op, acc: Expr, e: Expr)
    ensures Operands(op, Graft(op, acc, e)) == Operands(op, acc) + NormAll(Operands(op, e))
    decreases e, 1
  {
    if IsOp(op, e) {
      GraftOperands(op, acc, e.left);
      GraftOperands(op, Graft(op, acc, e.left), e.right);
      NormAllConcat(Operands(op, e.left), Operands(op, e.right));
    } else {
      NormKeepsType(e);
    }
  }

  lemma {:induction false} NormKeepsType(e: Expr)
    ensures TypeOf(Norm(e)) == TypeOf(e)
    decreases e, 0
  {
    if e.Bin? { GraftType(e.op, Norm(e.left), e.right); }
  }

  lemma {:induction false} GraftType(op: Op, acc: Expr, e: Expr)
    ensures IsOp(op, Graft(op, acc, e))
    decreases e, 1
  {
    if IsOp(op, e) { GraftType(op, Graft(op, acc, e.left), e.right); }
  }

  /** Reading back only regroups: a chain keeps its operands and their order. */
  lemma {:induction false} NormRegroups(op: Op, e: Expr)
    ensures Operands(op, Norm(e)) == NormAll(Operands(op, e))
    decreases e
  {
    if IsOp(op, e) {
      NormRegroups(op, e.left);
      GraftOperands(op, Norm(e.left), e.right);
      NormAllConcat(Operands(op, e.left), Operands(op, e.right));
    } else {
      NormKeepsType(e);
    }
  }
}
