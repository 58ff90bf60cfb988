/** The parentheses of expr_print are enough: reading the printed tokens gives the
    expression back, up to the grouping of equal operators. The missing quotes are
    not: a quoted constant is read back as a symbol. */
module RoundTrip {
  import opened Tristates
  import opened Exprs
  import opened Equality
  import opened Grammar
  import opened Sequences

  /** In this state a reduced expression stays an operand when `op` follows it. */
  predicate SafeFor(op: Op, st: Stack) {
    || st.Bottom?
    || st.top == T(Open)
    || (op == AndOp && st.top == T(OrTok) && st.below.Push? && st.below.top.E?)
  }

  predicate NoRel(rest: seq<Token>) { rest != [] ==> !IsRel(rest[0]) }

  /** What may follow an operand of `op`. */
  predicate MayFollow(op: Op, rest: seq<Token>) {
    NoRel(rest) && (rest != [] && op == OrOp ==> !rest[0].AndTok?)
  }

  /** Printed after `prev`, the expression is bracketed or has no open chain. */
  predicate Closed(e: Expr, prev: ExprType) { e.Bin? ==> CompareType(prev, TypeOf(e)) > 0 }

  /** Reading `ts` leaves `e` on the stack. */
  ghost predicate Reads(t: Table, st: Stack, ts: seq<Token>, e: Expr, rest: seq<Token>) {
    Run(t, Running(st, ts + rest)) == Run(t, Running(Push(E(e), st), rest))
  }

  /** The expression with every symbol replaced by what its name is looked up as. */
  function Reread(t: Table, names: Symbol -> string, e: Expr): (r: Expr)
    ensures TypeOf(r) == TypeOf(e)
  {
    match e
    case Sym(s) => Sym(Look(t, NameOf(names, s)))
    case Not(a) => Not(Reread(t, names, a))
    case Cmp(rel, l, r) => Cmp(rel, Look(t, NameOf(names, l)), Look(t, NameOf(names, r)))
    case Bin(op, l, r) => Bin(op, Reread(t, names, l), Reread(t, names, r))
  }

  lemma RunStep(t: Table, st: Stack, input: seq<Token>)
    ensures Run(t, Running(st, input)) == Run(t, Step(t, st, input))
  {}

  lemma ShiftPrefix(t: Table, st: Stack, tok: Token, more: seq<Token>)
    requires WantsOperand(st) && (tok.Open? || tok.NotTok?)
    ensures Run(t, Running(st, [tok] + more)) == Run(t, Running(Push(T(tok), st), more))
  {
    assert ([tok] + more)[1..] == more;
  }

  lemma ShiftOp(t: Table, op: Op, st: Stack, e: Expr, more: seq<Token>)
    requires SafeFor(op, st)
    ensures Run(t, Running(Push(E(e), st), [OpToken(op)] + more))
         == Run(t, Running(Push(T(OpToken(op)), Push(E(e), st)), more))
  {
    assert ([OpToken(op)] + more)[1..] == more;
  }

  lemma ReduceOp(t: Table, op: Op, st: Stack, acc: Expr, e: Expr, rest: seq<Token>)
    requires MayFollow(op, rest)
    ensures Run(t, Running(Push(E(e), Push(T(OpToken(op)), Push(E(acc), st))), rest))
         == Run(t, Running(Push(E(Bin(op, acc, e)), st), rest))
  {}

  lemma ReduceNot(t: Table, st: Stack, e: Expr, rest: seq<Token>)
    ensures Run(t, Running(Push(E(e), Push(T(NotTok), st)), rest)) == Run(t, Running(Push(E(Not(e)), st), rest))
  {}

  lemma CloseBracket(t: Table, st: Stack, e: Expr, rest: seq<Token>)
    ensures Run(t, Running(Push(E(e), Push(T(Open), st)), [Close] + rest)) == Run(t, Running(Push(E(e), st), rest))
  {
    var inner := Push(E(e), Push(T(Open), st));
    assert ([Close] + rest)[1..] == rest;
    RunStep(t, inner, [Close] + rest);
    RunStep(t, Push(T(Close), inner), rest);
  }

  lemma ReadsSym(t: Table, st: Stack, name: string, rest: seq<Token>)
    requires WantsOperand(st) && NoRel(rest)
    ensures Reads(t, st, [Word(name)], Sym(Look(t, name)), rest)
  {
    var input := [Word(name)] + rest;
    assert input[0] == Word(name) && input[1..] == rest;
    RunStep(t, st, input);
    RunStep(t, Push(S(Look(t, name)), st), rest);
  }

  lemma ReadsCmp(t: Table, st: Stack, rel: Rel, l: string, r: string, rest: seq<Token>)
    requires WantsOperand(st)
    ensures Reads(t, st, [Word(l), if rel == Equal then EqualTok else UnequalTok, Word(r)],
                  Cmp(rel, Look(t, l), Look(t, r)), rest)
  {
    var tok := if rel == Equal then EqualTok else UnequalTok;
    var i1, i2 := [tok, Word(r)] + rest, [Word(r)] + rest;
    assert [Word(l), tok, Word(r)] + rest == [Word(l)] + i1 && i1 == [tok] + i2;
    RunStep(t, st, [Word(l)] + i1);
    RunStep(t, Push(S(Look(t, l)), st), i1);
    RunStep(t, Push(T(tok), Push(S(Look(t, l)), st)), i2);
    assert i2[1..] == rest;
    RunStep(t, Push(S(Look(t, r)), Push(T(tok), Push(S(Look(t, l)), st))), rest);
  }

  /** A bracketed or chain-free expression is read in any state. */
  lemma {:induction false} ReadsClosed(t: Table, names: Symbol -> string, st: Stack, e: Expr, prev: ExprType, rest: seq<Token>)
    requires WantsOperand(st) && Closed(e, prev) && NoRel(rest)
    requires prev.NoneType? || prev.OrType? || prev.AndType? || prev.NotType?
    ensures Reads(t, st, Print(names, e, prev), Norm(Reread(t, names, e)), rest)
    decreases e, 2
  {
    match e
    case Sym(s) => ReadsSym(t, st, NameOf(names, s), rest);
    case Cmp(rel, l, r) => ReadsCmp(t, st, rel, NameOf(names, l), NameOf(names, r), rest);
    case Not(a) => ReadsNot(t, names, st, a, prev, rest);
    case Bin(op, l, r) => ReadsBracketed(t, names, st, e, prev, rest);
  }

  lemma {:induction false} ReadsNot(t: Table, names: Symbol -> string, st: Stack, a: Expr, prev: ExprType, rest: seq<Token>)
    requires WantsOperand(st) && NoRel(rest)
    requires prev.NoneType? || prev.OrType? || prev.AndType? || prev.NotType?
    ensures Reads(t, st, Print(names, Not(a), prev), Norm(Reread(t, names, Not(a))), rest)
    decreases a, 5
  {
    var ts := Print(names, a, NotType);
    assert Print(names, Not(a), prev) + rest == [NotTok] + (ts + rest);
    ShiftPrefix(t, st, NotTok, ts + rest);
    ReadsClosed(t, names, Push(T(NotTok), st), a, NotType, rest);
    ReduceNot(t, st, Norm(Reread(t, names, a)), rest);
  }

  lemma {:induction false} ReadsBracketed(t: Table, names: Symbol -> string, st: Stack, e: Expr, prev: ExprType, rest: seq<Token>)
    requires WantsOperand(st) && e.Bin? && CompareType(prev, TypeOf(e)) > 0
    ensures Reads(t, st, Print(names, e, prev), Norm(Reread(t, names, e)), rest)
    decreases e, 1
  {
    var op := e.op;
    var body := Print(names, e, OpType(op));
    assert Print(names, e, prev) + rest == [Open] + (body + ([Close] + rest));
    ShiftPrefix(t, st, Open, body + ([Close] + rest));
    ReadsOperand(t, names, op, Push(T(Open), st), e, [Close] + rest);
    CloseBracket(t, st, Norm(Reread(t, names, e)), rest);
  }

  /** A chain is printed without brackets around it. */
  lemma PrintChain(names: Symbol -> string, op: Op, e: Expr, rest: seq<Token>)
    requires IsOp(op, e)
    ensures Print(names, e, OpType(op)) + rest
         == Print(names, e.left, OpType(op)) + ([OpToken(op)] + (Print(names, e.right, OpType(op)) + rest))
  {
    var l, r := Print(names, e.left, OpType(op)), Print(names, e.right, OpType(op));
    PrintUnbracketed(names, op, e);
    Concat3(l + [OpToken(op)], r, rest);
    Concat3(l, [OpToken(op)], r + rest);
  }

  lemma PrintUnbracketed(names: Symbol -> string, op: Op, e: Expr)
    requires IsOp(op, e)
    ensures Print(names, e, OpType(op))
         == Print(names, e.left, OpType(op)) + [OpToken(op)] + Print(names, e.right, OpType(op))
  {
    assert CompareType(OpType(op), TypeOf(e)) == 0;
  }

  /** An expression printed as an operand of `op`, at the start of a chain. */
  lemma {:induction false} ReadsOperand(t: Table, names: Symbol -> string, op: Op, st: Stack, e: Expr, rest: seq<Token>)
    requires SafeFor(op, st) && MayFollow(op, rest)
    ensures Reads(t, st, Print(names, e, OpType(op)), Norm(Reread(t, names, e)), rest)
    decreases e, if IsOp(op, e) then 0 else 3
  {
    if IsOp(op, e) {
      var l, r := e.left, Print(names, e.right, OpType(op));
      PrintChain(names, op, e, rest);
      ReadsOperand(t, names, op, st, l, [OpToken(op)] + (r + rest));
      ShiftOp(t, op, st, Norm(Reread(t, names, l)), r + rest);
      ReadsNext(t, names, op, st, Norm(Reread(t, names, l)), e.right, rest);
    } else if Closed(e, OpType(op)) {
      ReadsClosed(t, names, st, e, OpType(op), rest);
    } else {
      ReadsOperand(t, names, AndOp, st, e, rest);
    }
  }

  /** An expression printed as an operand of `op`, behind the chain `acc`. */
  lemma {:induction false} ReadsNext(t: Table, names: Symbol -> string, op: Op, st: Stack, acc: Expr, e: Expr, rest: seq<Token>)
    requires SafeFor(op, st) && MayFollow(op, rest)
    ensures Run(t, Running(Push(T(OpToken(op)), Push(E(acc), st)), Print(names, e, OpType(op)) + rest))
         == Run(t, Running(Push(E(Graft(op, acc, Reread(t, names, e))), st), rest))
    decreases e, 4
  {
    var next := Push(T(OpToken(op)), Push(E(acc), st));
    if IsOp(op, e) {
      var r, acc' := Print(names, e.right, OpType(op)), Graft(op, acc, Reread(t, names, e.left));
      PrintChain(names, op, e, rest);
      ReadsNext(t, names, op, st, acc, e.left, [OpToken(op)] + (r + rest));
      ShiftOp(t, op, st, acc', r + rest);
      ReadsNext(t, names, op, st, acc', e.right, rest);
    } else {
      if Closed(e, OpType(op)) {
        ReadsClosed(t, names, next, e, OpType(op), rest);
      } else {
        ReadsOperand(t, names, AndOp, next, e, rest);
      }
      ReduceOp(t, op, st, acc, Norm(Reread(t, names, e)), rest);
    }
  }

  /** What is read back from the print of any expression: the expression, up to the
      grouping of && and ||, with the symbols that its names are looked up as. */
  lemma ParseOfPrint(t: Table, names: Symbol -> string, e: Expr)
    ensures Parse(t, Print(names, e, NoneType)) == Some(Norm(Reread(t, names, e)))
  {
    var ts := Print(names, e, NoneType);
    assert ts + [] == ts;
    if e.Bin? {
      ReadsOperand(t, names, e.op, Bottom, e, []);
    } else {
      ReadsClosed(t, names, Bottom, e, NoneType, []);
    }
    RunStep(t, Push(E(Norm(Reread(t, names, e))), Bottom), []);
  }

  /** Operands of another operator are not regrouped with the chain. */
  lemma NormOfPair(op: Op, l: Expr, r: Expr)
    requires !IsOp(op, r)
    ensures Norm(Bin(op, l, r)) == Bin(op, Norm(l), Norm(r))
  {}

  lemma NormOfLeaf(s: Expr)
    requires s.Sym?
    ensures Norm(s) == s && Norm(Not(s)) == Not(s)
  {}

  /** `a || b && c` is read as `a || (b && c)`, */
  lemma AndBeforeOr(t: Table, a: string, b: string, c: string)
    ensures Parse(t, [Word(a), OrTok, Word(b), AndTok, Word(c)])
         == Some(Bin(OrOp, Sym(Look(t, a)), Bin(AndOp, Sym(Look(t, b)), Sym(Look(t, c)))))
  {
    var p, q, s := Sym(Exprs.Config(0, BooleanType)), Sym(Exprs.Config(1, BooleanType)), Sym(Exprs.Config(2, BooleanType));
    var names := (x: Symbol) => if x == p.sym then a else if x == q.sym then b else c;
    var e, x, y, z := Bin(OrOp, p, Bin(AndOp, q, s)), Sym(Look(t, a)), Sym(Look(t, b)), Sym(Look(t, c));
    assert Print(names, Bin(AndOp, q, s), OrType) == [Word(b)] + [AndTok] + [Word(c)];
    assert Print(names, e, NoneType) == [Word(a), OrTok, Word(b), AndTok, Word(c)];
    ParseOfPrint(t, names, e);
    assert Reread(t, names, Bin(AndOp, q, s)) == Bin(AndOp, y, z);
    assert Reread(t, names, e) == Bin(OrOp, x, Bin(AndOp, y, z));
    NormOfLeaf(x); NormOfLeaf(y); NormOfLeaf(z);
    NormOfPair(AndOp, y, z);
    NormOfPair(OrOp, x, Bin(AndOp, y, z));
  }

  /** `a && b || c` as `(a && b) || c`, */
  lemma AndBeforeLaterOr(t: Table, a: string, b: string, c: string)
    ensures Parse(t, [Word(a), AndTok, Word(b), OrTok, Word(c)])
         == Some(Bin(OrOp, Bin(AndOp, Sym(Look(t, a)), Sym(Look(t, b))), Sym(Look(t, c))))
  {
    var p, q, s := Sym(Exprs.Config(0, BooleanType)), Sym(Exprs.Config(1, BooleanType)), Sym(Exprs.Config(2, BooleanType));
    var names := (x: Symbol) => if x == p.sym then a else if x == q.sym then b else c;
    var e, x, y, z := Bin(OrOp, Bin(AndOp, p, q), s), Sym(Look(t, a)), Sym(Look(t, b)), Sym(Look(t, c));
    assert Print(names, Bin(AndOp, p, q), OrType) == [Word(a)] + [AndTok] + [Word(b)];
    assert Print(names, e, NoneType) == [Word(a), AndTok, Word(b), OrTok, Word(c)];
    ParseOfPrint(t, names, e);
    assert Reread(t, names, Bin(AndOp, p, q)) == Bin(AndOp, x, y);
    assert Reread(t, names, e) == Bin(OrOp, Bin(AndOp, x, y), z);
    NormOfLeaf(x); NormOfLeaf(y); NormOfLeaf(z);
    NormOfPair(AndOp, x, y);
    NormOfPair(OrOp, Bin(AndOp, x, y), z);
  }

  /** and `!a && b` as `(!a) && b`. */
  lemma NotBeforeAnd(t: Table, a: string, b: string)
    ensures Parse(t, [NotTok, Word(a), AndTok, Word(b)]) == Some(Bin(AndOp, Not(Sym(Look(t, a))), Sym(Look(t, b))))
  {
    var p, q := Sym(Exprs.Config(0, BooleanType)), Sym(Exprs.Config(1, BooleanType));
    var names := (x: Symbol) => if x == p.sym then a else b;
    var e, x, y := Bin(AndOp, Not(p), q), Sym(Look(t, a)), Sym(Look(t, b));
    assert Print(names, Not(p), AndType) == [NotTok] + [Word(a)];
    assert Print(names, e, NoneType) == [NotTok, Word(a), AndTok, Word(b)];
    ParseOfPrint(t, names, e);
    assert Reread(t, names, Not(p)) == Not(x);
    assert Reread(t, names, e) == Bin(AndOp, Not(x), y);
    NormOfLeaf(x); NormOfLeaf(y);
    NormOfPair(AndOp, Not(x), y);
  }

  /** The symbols of an expression, from left to right. */
  function Words(e: Expr): seq<Symbol> {
    match e
    case Sym(s) => [s]
    case Not(a) => Words(a)
    case Cmp(_, l, r) => [l, r]
    case Bin(_, l, r) => Words(l) + Words(r)
  }

  lemma {:induction false} WordsAreSymbols(e: Expr, s: Symbol)
    ensures s in Words(e) <==> s in Symbols(e)
  {
    match e
    case Not(a) => WordsAreSymbols(a, s);
    case Bin(_, l, r) => WordsAreSymbols(l, s); WordsAreSymbols(r, s);
    case _ =>
  }

  /** Regrouping keeps them. */
  lemma {:induction false} WordsOfNorm(e: Expr)
    ensures Words(Norm(e)) == Words(e)
    decreases e, 0
  {
    match e
    case Not(a) => WordsOfNorm(a);
    case Bin(op, l, r) => WordsOfNorm(l); WordsOfGraft(op, Norm(l), r);
    case _ =>
  }

  lemma {:induction false} WordsOfGraft(op: Op, acc: Expr, e: Expr)
    ensures Words(Graft(op, acc, e)) == Words(acc) + Words(e)
    decreases e, 1
  {
    if IsOp(op, e) {
      WordsOfGraft(op, acc, e.left);
      WordsOfGraft(op, Graft(op, acc, e.left), e.right);
      Concat3(Words(acc), Words(e.left), Words(e.right));
    } else {
      WordsOfNorm(e);
    }
  }

  /** The symbol is found again under its name. */
  predicate IsFound(t: Table, names: Symbol -> string, s: Symbol) { Look(t, NameOf(names, s)) == s }

  lemma {:induction false} WordsOfReread(t: Table, names: Symbol -> string, e: Expr)
    ensures |Words(Reread(t, names, e))| == |Words(e)|
    ensures forall i :: 0 <= i < |Words(e)| ==> Words(Reread(t, names, e))[i] == Look(t, NameOf(names, Words(e)[i]))
  {
    match e
    case Not(a) => WordsOfReread(t, names, a);
    case Bin(_, l, r) => WordsOfReread(t, names, l); WordsOfReread(t, names, r);
    case _ =>
  }

  lemma {:induction false} RereadSame(t: Table, names: Symbol -> string, e: Expr)
    requires forall s :: s in Symbols(e) ==> IsFound(t, names, s)
    ensures Reread(t, names, e) == e
  {
    match e
    case Sym(s) => assert s in Symbols(e);
    case Not(a) => RereadSame(t, names, a);
    case Cmp(_, l, r) => assert l in Symbols(e) && r in Symbols(e);
    case Bin(_, l, r) => RereadSame(t, names, l); RereadSame(t, names, r);
  }

  /** Printing and parsing are inverse, up to the grouping of && and ||, exactly for the
      expressions whose symbols are all found again under their names. */
  lemma PrintThenParse(t: Table, names: Symbol -> string, e: Expr)
    ensures Parse(t, Print(names, e, NoneType)) == Some(Norm(e))
            <==> forall s :: s in Symbols(e) ==> IsFound(t, names, s)
  {
    ParseOfPrint(t, names, e);
    if forall s :: s in Symbols(e) ==> IsFound(t, names, s) {
      RereadSame(t, names, e);
    }
    if Norm(Reread(t, names, e)) == Norm(e) {
      WordsOfNorm(e);
      WordsOfNorm(Reread(t, names, e));
      WordsOfReread(t, names, e);
      forall s | s in Symbols(e) ensures IsFound(t, names, s) {
        WordsAreSymbols(e, s);
        var i :| 0 <= i < |Words(e)| && Words(e)[i] == s;
      }
    }
  }

  /** A quoted constant is never found under its text. So where all other symbols are, an
      expression comes back if and only if it mentions no quoted constant. */
  lemma PrintThenParseIffUnquoted(t: Table, names: Symbol -> string, e: Expr)
    requires IsTable(t) && forall s :: s in Symbols(e) && s.Config? ==> IsFound(t, names, s)
    ensures Parse(t, Print(names, e, NoneType)) == Some(Norm(e)) <==> forall s :: s in Symbols(e) ==> !s.Quoted?
  {
    PrintThenParse(t, names, e);
    forall s | s in Symbols(e) ensures IsFound(t, names, s) <==> !s.Quoted? {}
  }

  /** Both symbols are worth the same. */
  predicate SameWorth(env: Env, a: Symbol, b: Symbol) { env.tri(a) == env.tri(b) && env.str(a) == env.str(b) }

  /** The value read back is the value printed if every symbol is worth what its name is
      looked up as. */
  lemma {:induction false} RereadValue(t: Table, names: Symbol -> string, e: Expr, env: Env)
    requires forall s :: s in Symbols(e) ==> SameWorth(env, s, Look(t, NameOf(names, s)))
    ensures Value(Reread(t, names, e), env) == Value(e, env)
  {
    match e
    case Sym(s) => assert s in Symbols(e);
    case Not(a) => RereadValue(t, names, a, env);
    case Cmp(_, l, r) => assert l in Symbols(e) && r in Symbols(e);
    case Bin(_, l, r) => RereadValue(t, names, l, env); RereadValue(t, names, r, env);
  }

  /** A name that is entered by its lookup makes a symbol of unknown type, worth its name. */
  ghost predicate NewAreNames(t: Table, env: Env) {
    forall n :: n !in t.hash ==>
      env.tri(Config(t.alloc(n), UnknownType)) == NO && env.str(Config(t.alloc(n), UnknownType)) == n
  }

  /** So the value survives as long as no quoted text is the name of a declared symbol. */
  lemma PrintThenParseValue(t: Table, names: Symbol -> string, e: Expr, env: Env)
    requires WellTyped(env) && NewAreNames(t, env)
    requires forall s :: s in Symbols(e) && s.Config? ==> IsFound(t, names, s)
    requires forall s :: s in Symbols(e) && s.Quoted? ==> s.text !in t.hash
    ensures Parse(t, Print(names, e, NoneType)).Some?
    ensures Value(Parse(t, Print(names, e, NoneType)).value, env) == Value(e, env)
  {
    ParseOfPrint(t, names, e);
    forall s | s in Symbols(e) ensures SameWorth(env, s, Look(t, NameOf(names, s))) {
      assert TypedAt(env, s);
    }
    RereadValue(t, names, e, env);
    NormValue(Reread(t, names, e), env);
  }

  const STRING_A: Symbol := Config(0, StringType)
  const STRING_B: Symbol := Config(1, StringType)

  /** With A and B declared, `A = "B"` is printed as `A = B` and read back as the
      comparison of two symbols: another expression, and another value where A is worth
      "B" and B is not. */
  lemma QuotedIsReadAsSymbol(alloc: string -> nat, env: Env)
    requires env.str(STRING_A) == "B" == env.str(Quoted("B")) && env.str(STRING_B) != "B"
    ensures var names := (s: Symbol) => if s == STRING_A then "A" else "B";
            var t := Table(map["A" := STRING_A, "B" := STRING_B], alloc);
            var e, r := Cmp(Equal, STRING_A, Quoted("B")), Cmp(Equal, STRING_A, STRING_B);
            && Parse(t, Print(names, e, NoneType)) == Some(r) != Some(Norm(e))
            && Value(e, env) == YES && Value(r, env) == NO
  {
    var names := (s: Symbol) => if s == STRING_A then "A" else "B";
    ParseOfPrint(Table(map["A" := STRING_A, "B" := STRING_B], alloc), names, Cmp(Equal, STRING_A, Quoted("B")));
  }
}
