/** What expr_eq takes for equal, exactly: without constant operands inside, expressions
    that differ only in the order and the grouping of operands (expr.c). */
module Likeness {
  import opened Exprs
  import opened Equality
  import opened Joins
  import opened Reflexivity

  /** No operand of a chain is y or n, at any depth. */
  predicate Pure(e: Expr) {
    match e
    case Bin(_, l, r) => !IsYn(l) && !IsYn(r) && Pure(l) && Pure(r)
    case Not(a) => Pure(a)
    case _ => true
  }

  lemma {:induction false} PureIsYnFree(e: Expr)
    requires Pure(e)
    ensures YnFree(e)
  {
    if e.Bin? {
      PureIsYnFree(e.left);
      PureIsYnFree(e.right);
    }
  }

  /** An expression without the order and the grouping of operands. */
  datatype Shape = Leaf(e: Expr) | Negation(arg: Shape) | Chain(op: Op, operands: multiset<Shape>)

  function ShapeOf(e: Expr): Shape
    decreases e, 0
  {
    match e
    case Bin(op, l, r) => Chain(op, Live(op, l) + Live(op, r))
    case Not(a) => Negation(ShapeOf(a))
    case _ => Leaf(e)
  }

  /** The shapes of the operands of a chain, but for y and n. */
  function Live(op: Op, e: Expr): multiset<Shape>
    decreases e, 1
  {
    if IsOp(op, e) then Live(op, e.left) + Live(op, e.right)
    else if IsYn(e) then multiset{}
    else multiset{ShapeOf(e)}
  }

  /** A chain with operands without constants inside, and with y and n among them. */
  predicate Tidy(op: Op, e: Expr) {
    if IsOp(op, e) then Tidy(op, e.left) && Tidy(op, e.right) else IsYn(e) || Pure(e)
  }

  /** One operand decides the chain. */
  predicate IsDecided(op: Op, e: Expr) {
    if IsOp(op, e) then IsDecided(op, e.left) || IsDecided(op, e.right) else e == Sym(Absorbing(op))
  }

  lemma {:induction false} PureIsTidy(op: Op, e: Expr)
    requires Pure(e)
    ensures Tidy(op, e) && (!IsYn(e) ==> !IsDecided(op, e) && Live(op, e) != multiset{})
  {
    if IsOp(op, e) {
      PureIsTidy(op, e.left);
      PureIsTidy(op, e.right);
    } else if !IsYn(e) {
      assert ShapeOf(e) in Live(op, e);
    }
  }

  /** Taking one shape out of either half of a chain. */
  lemma TakeOut(c: Shape, l: multiset<Shape>, r: multiset<Shape>)
    ensures c in l ==> (l - multiset{c}) + r == (l + r) - multiset{c}
    ensures c in r ==> l + (r - multiset{c}) == (l + r) - multiset{c}
    ensures c in l + r <==> c in l || c in r
  {}

  /** `t'` is `t` without one operand of the shape `c`. */
  ghost predicate Without(op: Op, c: Shape, t: Expr, t': Expr) {
    && Tidy(op, t') && (IsDecided(op, t') <==> IsDecided(op, t))
    && c in Live(op, t) && Live(op, t') == Live(op, t) - multiset{c}
  }

  lemma WithoutHalf(op: Op, c: Shape, l: Expr, r: Expr, l': Expr, r': Expr)
    requires Tidy(op, l) && Tidy(op, r) && ((Without(op, c, l, l') && r' == r) || (Without(op, c, r, r') && l' == l))
    ensures Without(op, c, Bin(op, l, r), Bin(op, l', r'))
  {
    TakeOut(c, Live(op, l), Live(op, r));
  }

  /** One operand against a chain: it meets the first of its shape, if any. */
  lemma {:induction false} CancelOne(op: Op, x: Expr, t: Expr)
    requires !IsOp(op, x) && !IsYn(x) && Pure(x) && Tidy(op, t)
    ensures var r := CancelPairs(op, x, t);
      if ShapeOf(x) in Live(op, t) then r.0 == Sym(Identity(op)) && Without(op, ShapeOf(x), t, r.1) else r == (x, t)
    decreases Size(x) + Size(t), CancelRank(op, x, t), 0
  {
    if IsOp(op, t) {
      var c, y := ShapeOf(x), CancelPairs(op, x, t.left);
      TakeOut(c, Live(op, t.left), Live(op, t.right));
      CancelOne(op, x, t.left);
      if c in Live(op, t.left) {
        DeadLeft(op, Sym(Identity(op)), t.right);
        WithoutHalf(op, c, t.left, t.right, y.1, t.right);
      } else {
        CancelOne(op, x, t.right);
        if c in Live(op, t.right) {
          WithoutHalf(op, c, t.left, t.right, t.left, CancelPairs(op, x, t.right).1);
        }
      }
    } else {
      CancelTwo(op, x, t);
    }
  }

  lemma {:induction false} CancelTwo(op: Op, x: Expr, t: Expr)
    requires !IsOp(op, x) && !IsYn(x) && Pure(x) && !IsOp(op, t) && Tidy(op, t)
    ensures var r := CancelPairs(op, x, t);
      if ShapeOf(x) in Live(op, t) then r.0 == Sym(Identity(op)) && Without(op, ShapeOf(x), t, r.1) else r == (x, t)
    decreases Size(x) + Size(t), 3, 1
  {
    ExprEqIff(x, t);
  }

  /** All that both chains have is gone, as often as both had it. */
  ghost predicate Cancelled(op: Op, a: Expr, b: Expr, a': Expr, b': Expr) {
    && Tidy(op, a') && (IsDecided(op, a') <==> IsDecided(op, a))
    && Tidy(op, b') && (IsDecided(op, b') <==> IsDecided(op, b))
    && Live(op, a') == Live(op, a) - Live(op, b)
    && Live(op, b') == Live(op, b) - Live(op, a)
  }

  /** Cancelling the left half of a chain, then the right one. */
  lemma CancelHalves(op: Op, l: Expr, r: Expr, b: Expr, l': Expr, r': Expr, b': Expr, b'': Expr)
    requires Cancelled(op, l, b, l', b') && Cancelled(op, r, b', r', b'')
    ensures Cancelled(op, Bin(op, l, r), b, Bin(op, l', r'), b'')
  {
    LiveOfHalves(op, l, r);
    LiveOfHalves(op, l', r');
    CancelSums(Live(op, l), Live(op, r), Live(op, b));
  }

  lemma LiveOfHalves(op: Op, l: Expr, r: Expr)
    ensures Live(op, Bin(op, l, r)) == Live(op, l) + Live(op, r)
    ensures IsDecided(op, Bin(op, l, r)) <==> IsDecided(op, l) || IsDecided(op, r)
    ensures Tidy(op, Bin(op, l, r)) <==> Tidy(op, l) && Tidy(op, r)
  {}

  lemma CancelSums(l: multiset<Shape>, r: multiset<Shape>, b: multiset<Shape>)
    ensures (l - b) + (r - (b - l)) == (l + r) - b
    ensures (b - l) - r == b - (l + r)
  {}

  lemma CancelledHit(op: Op, x: Expr, t: Expr, t': Expr)
    requires !IsOp(op, x) && !IsYn(x) && Pure(x) && Without(op, ShapeOf(x), t, t')
    ensures Cancelled(op, x, t, Sym(Identity(op)), t')
  {
    LiveOfOperand(op, x);
    LiveOfOperand(op, Sym(Identity(op)));
    OneAgainst(ShapeOf(x), Live(op, t));
  }

  lemma LiveOfOperand(op: Op, x: Expr)
    requires !IsOp(op, x)
    ensures Live(op, x) == if IsYn(x) then multiset{} else multiset{ShapeOf(x)}
    ensures Tidy(op, x) <==> IsYn(x) || Pure(x)
    ensures IsDecided(op, x) <==> x == Sym(Absorbing(op))
  {}

  lemma CancelledMiss(op: Op, x: Expr, t: Expr)
    requires !IsOp(op, x) && !IsYn(x) && Pure(x) && Tidy(op, t) && ShapeOf(x) !in Live(op, t)
    ensures Cancelled(op, x, t, x, t)
  {
    LiveOfOperand(op, x);
    OneAgainst(ShapeOf(x), Live(op, t));
  }

  lemma OneAgainst(c: Shape, m: multiset<Shape>)
    ensures multiset{c} - m == if c in m then multiset{} else multiset{c}
    ensures c !in m ==> m - multiset{c} == m
  {}

  /** Two chains against each other. */
  lemma {:induction false} CancelAll(op: Op, a: Expr, b: Expr)
    requires Tidy(op, a) && Tidy(op, b)
    ensures var r := CancelPairs(op, a, b); Cancelled(op, a, b, r.0, r.1)
    decreases Size(a) + Size(b), CancelRank(op, a, b), 1
  {
    if IsOp(op, a) {
      var x := CancelPairs(op, a.left, b);
      CancelAll(op, a.left, b);
      CancelAll(op, a.right, x.1);
      var y := CancelPairs(op, a.right, x.1);
      CancelHalves(op, a.left, a.right, b, x.0, y.0, x.1, y.1);
    } else if IsYn(a) {
      DeadLeft(op, a, b);
      assert Live(op, a) == multiset{};
    } else {
      CancelOne(op, a, b);
      if ShapeOf(a) in Live(op, b) {
        CancelledHit(op, a, b, CancelPairs(op, a, b).1);
      } else {
        CancelledMiss(op, a, b);
      }
    }
  }

  /** What expr_eliminate_yn makes of a chain, decided or with these live operands. */
  ghost predicate Reduct(op: Op, decided: bool, live: multiset<Shape>, r: Expr) {
    if decided then r == Sym(Absorbing(op))
    else if live == multiset{} then r == Sym(Identity(op))
    else !IsYn(r) && (r.Sym? ==> live == multiset{Leaf(r)})
  }

  ghost predicate ReducedTo(op: Op, e: Expr, r: Expr) { Reduct(op, IsDecided(op, e), Live(op, e), r) }

  /** Two reduced halves, reduced. */
  lemma ReductsJoin(op: Op, d: bool, x: multiset<Shape>, l: Expr, d': bool, y: multiset<Shape>, r: Expr)
    requires Reduct(op, d, x, l) && Reduct(op, d', y, r)
    ensures Reduct(op, d || d', x + y,
      if l == Sym(Absorbing(op)) then l
      else if l == Sym(Identity(op)) then r
      else if r == Sym(Absorbing(op)) then r
      else if r == Sym(Identity(op)) then l
      else Bin(op, l, r))
  {
    EmptySum(x, y);
  }

  lemma EmptySum(l: multiset<Shape>, r: multiset<Shape>)
    ensures l + r == multiset{} <==> l == multiset{} && r == multiset{}
    ensures l == multiset{} ==> l + r == r
    ensures r == multiset{} ==> l + r == l
  {
    if l + r == multiset{} { assert l <= l + r && r <= l + r; }
  }

  lemma {:induction false} TidyReduced(op: Op, e: Expr)
    requires Tidy(op, e)
    ensures ReducedTo(op, e, EliminateYn(e))
  {
    if IsOp(op, e) {
      TidyReduced(op, e.left);
      TidyReduced(op, e.right);
      LiveOfHalves(op, e.left, e.right);
      ReductsJoin(op, IsDecided(op, e.left), Live(op, e.left), EliminateYn(e.left),
                  IsDecided(op, e.right), Live(op, e.right), EliminateYn(e.right));
    } else if !IsYn(e) {
      PureIsYnFree(e);
      assert ShapeOf(e) in Live(op, e);
    }
  }

  /** Chains of one operator are found equal if and only if one operand decides each of
      them, or none does and they have the same operands, in any order and grouping. */
  lemma {:induction false} ChainsEqual(op: Op, a: Expr, b: Expr)
    requires IsOp(op, a) && IsOp(op, b) && Tidy(op, a) && Tidy(op, b)
    ensures ExprEq(a, b) <==>
      if IsDecided(op, a) || IsDecided(op, b) then IsDecided(op, a) && IsDecided(op, b)
      else Live(op, a) == Live(op, b)
    decreases Size(a) + Size(b), 2
  {
    var r := CancelPairs(op, a, b);
    CancelAll(op, a, b);
    assert EliminateEq(a, b) == (EliminateYn(r.0), EliminateYn(r.1));
    LeftoversEqual(op, r.0, r.1, Live(op, a), Live(op, b));
  }

  lemma OneLeft(op: Op, decided: bool, live: multiset<Shape>, r: Expr)
    requires Reduct(op, decided, live, r) && r.Sym? && !decided && live != multiset{}
    ensures !IsYn(r) && Leaf(r) in live
  {}

  /** Reduced chains that share no operand are the same symbol only if it is a constant. */
  lemma ReductsMeet(op: Op, d: bool, x: multiset<Shape>, s: Expr, d': bool, y: multiset<Shape>, t: Expr)
    requires Reduct(op, d, x, s) && Reduct(op, d', y, t) && forall c :: !(c in x && c in y)
    ensures s.Sym? && t.Sym? && s.sym == t.sym <==>
      if d || d' then d && d' else x == multiset{} && y == multiset{}
  {
    if s.Sym? && t == s && !d && !d' && x != multiset{} && y != multiset{} {
      OneLeft(op, d, x, s);
      OneLeft(op, d', y, t);
    }
  }

  /** What is left of both, once all that they share is cancelled. */
  lemma LeftoversEqual(op: Op, a: Expr, b: Expr, x: multiset<Shape>, y: multiset<Shape>)
    requires Tidy(op, a) && Tidy(op, b) && Live(op, a) == x - y && Live(op, b) == y - x
    ensures var s, t := EliminateYn(a), EliminateYn(b);
      s.Sym? && t.Sym? && s.sym == t.sym <==>
      if IsDecided(op, a) || IsDecided(op, b) then IsDecided(op, a) && IsDecided(op, b) else x == y
  {
    TidyReduced(op, a);
    TidyReduced(op, b);
    NothingLeft(x, y);
    forall c ensures !(c in Live(op, a) && c in Live(op, b)) { NothingShared(x, y, c); }
    ReductsMeet(op, IsDecided(op, a), Live(op, a), EliminateYn(a), IsDecided(op, b), Live(op, b), EliminateYn(b));
  }

  lemma NothingLeft(x: multiset<Shape>, y: multiset<Shape>)
    ensures x - y == multiset{} && y - x == multiset{} <==> x == y
  {
    if x - y == multiset{} && y - x == multiset{} {
      forall s ensures x[s] == y[s] {
        assert s !in x - y && s !in y - x;
      }
    }
  }

  lemma NothingShared(x: multiset<Shape>, y: multiset<Shape>, c: Shape)
    ensures !(c in x - y && c in y - x)
  {}

  /** Without constants inside, expr_eq finds exactly those expressions equal that differ
      only in the order and the grouping of operands. */
  lemma {:induction false} ExprEqIff(a: Expr, b: Expr)
    requires Pure(a) && Pure(b)
    ensures ExprEq(a, b) <==> ShapeOf(a) == ShapeOf(b)
    decreases Size(a) + Size(b), 3, 0
  {
    if a.Not? && b.Not? {
      ExprEqIff(a.arg, b.arg);
    } else if a.Bin? && b.Bin? && a.op == b.op {
      PureIsTidy(a.op, a);
      PureIsTidy(a.op, b);
      ChainsEqual(a.op, a, b);
    }
  }

  /** The shape of one operand, but for y and n. */
  function LiveOne(x: Expr): multiset<Shape> { if IsYn(x) then multiset{} else multiset{ShapeOf(x)} }

  /** Those of a list of operands. */
  function LiveIn(s: seq<Expr>): multiset<Shape> {
    if s == [] then multiset{}
    else LiveOne(s[0]) + LiveIn(s[1..])
  }

  lemma {:induction false} LiveInConcat(s: seq<Expr>, t: seq<Expr>)
    ensures LiveIn(s + t) == LiveIn(s) + LiveIn(t)
  {
    if s == [] {
      assert s + t == t;
    } else {
      assert (s + t)[1..] == s[1..] + t;
      LiveInConcat(s[1..], t);
    }
  }

  lemma {:induction false} LiveIsLiveIn(op: Op, e: Expr)
    ensures Live(op, e) == LiveIn(Operands(op, e))
    ensures IsDecided(op, e) <==> Sym(Absorbing(op)) in Operands(op, e)
  {
    if IsOp(op, e) {
      LiveIsLiveIn(op, e.left);
      LiveIsLiveIn(op, e.right);
      LiveInConcat(Operands(op, e.left), Operands(op, e.right));
    } else {
      assert Operands(op, e)[1..] == [];
      assert Operands(op, e)[0] == e;
    }
  }

  lemma LiveInMiddle(front: seq<Expr>, x: Expr, back: seq<Expr>)
    ensures LiveIn(front + ([x] + back)) == LiveOne(x) + LiveIn(front + back)
  {
    var a, c := LiveIn(front), LiveIn(back);
    assert LiveIn(front + ([x] + back)) == a + (LiveOne(x) + c) by {
      LiveInConcat(front, [x] + back);
      LiveInFirst(x, back);
    }
    LiveInConcat(front, back);
    MoveToFront(a, LiveOne(x), c);
  }

  lemma LiveInSplit(t: seq<Expr>, i: nat)
    requires i < |t|
    ensures LiveIn(t) == LiveOne(t[i]) + LiveIn(t[..i] + t[i + 1..])
  {
    LiveInMiddle(t[..i], t[i], t[i + 1..]);
    assert t == t[..i] + ([t[i]] + t[i + 1..]);
  }

  lemma LiveInFirst(x: Expr, s: seq<Expr>)
    ensures LiveIn([x] + s) == LiveOne(x) + LiveIn(s)
  {
    assert ([x] + s)[1..] == s;
  }

  lemma MoveToFront(a: multiset<Shape>, b: multiset<Shape>, c: multiset<Shape>)
    ensures a + (b + c) == b + (a + c)
  {}

  lemma MultisetSplit(t: seq<Expr>, i: nat)
    requires i < |t|
    ensures multiset(t) == multiset{t[i]} + multiset(t[..i] + t[i + 1..])
  {
    assert t == t[..i] + ([t[i]] + t[i + 1..]);
  }

  lemma SameRest(x: Expr, a: multiset<Expr>, b: multiset<Expr>)
    requires multiset{x} + a == multiset{x} + b
    ensures a == b
  {
    assert a == (multiset{x} + a) - multiset{x};
    assert b == (multiset{x} + b) - multiset{x};
  }

  lemma {:induction false} LiveInPermuted(s: seq<Expr>, t: seq<Expr>)
    requires multiset(s) == multiset(t)
    ensures LiveIn(s) == LiveIn(t)
    decreases |s|
  {
    if s == [] {
      assert |multiset(t)| == |t| == 0;
    } else {
      assert s[0] in multiset(s);
      var i := PlaceOf(s[0], t);
      var rest := t[..i] + t[i + 1..];
      MultisetSplit(t, i);
      MultisetSplit(s, 0);
      assert s[..0] + s[1..] == s[1..];
      SameRest(s[0], multiset(s[1..]), multiset(rest));
      LiveInPermuted(s[1..], rest);
      LiveInSplit(t, i);
    }
  }

  lemma PlaceOf(x: Expr, t: seq<Expr>) returns (i: nat)
    requires x in multiset(t)
    ensures i < |t| && t[i] == x
  {
    i :| 0 <= i < |t| && t[i] == x;
  }

  /** So chains whose operands are permutations of each other are found equal, */
  lemma PermutedIsEqual(op: Op, a: Expr, b: Expr)
    requires Tidy(op, a) && Tidy(op, b) && multiset(Operands(op, a)) == multiset(Operands(op, b))
    ensures ExprEq(a, b)
  {
    var s, t := Operands(op, a), Operands(op, b);
    LiveIsLiveIn(op, a);
    LiveIsLiveIn(op, b);
    LiveInPermuted(s, t);
    assert Sym(Absorbing(op)) in multiset(s) <==> Sym(Absorbing(op)) in multiset(t);
    assert |s| == |multiset(s)| == |multiset(t)| == |t|;
    OperandsOfChain(op, a);
    OperandsOfChain(op, b);
    if IsOp(op, a) {
      ChainsEqual(op, a, b);
    } else {
      assert s[0] in multiset(t);
      ExprEqReflexive(a);
    }
  }

  lemma OperandsOfChain(op: Op, e: Expr)
    ensures if IsOp(op, e) then |Operands(op, e)| >= 2 else Operands(op, e) == [e]
  {}

  /** in particular a chain and the same with its halves swapped. */
  lemma SwappedIsEqual(op: Op, l: Expr, r: Expr)
    requires Tidy(op, l) && Tidy(op, r)
    ensures ExprEq(Bin(op, l, r), Bin(op, r, l))
  {
    PermutedIsEqual(op, Bin(op, l, r), Bin(op, r, l));
  }

  /** The operands of the common chain. */
  function LiveOpt(op: Op, e: Option<Expr>): multiset<Shape> { if e.None? then multiset{} else Live(op, e.value) }

  /** A chain that no operand decides. */
  predicate Open(op: Op, e: Expr) { Tidy(op, e) && !IsDecided(op, e) }

  predicate OptOpen(op: Op, e: Option<Expr>) { e.Some? ==> Open(op, e.value) }

  /** All that both chains have went into the common chain. */
  ghost predicate Extracted(op: Op, common: Option<Expr>, a: Expr, b: Expr, x: Extraction) {
    && Open(op, x.a) && Open(op, x.b) && OptOpen(op, x.common)
    && Live(op, x.a) == Live(op, a) - Live(op, b)
    && Live(op, x.b) == Live(op, b) - Live(op, a)
    && LiveOpt(op, x.common) == LiveOpt(op, common) + Live(op, a) * Live(op, b)
  }

  lemma ExtractSums(l: multiset<Shape>, r: multiset<Shape>, b: multiset<Shape>, c: multiset<Shape>)
    ensures (c + l * b) + r * (b - l) == c + (l + r) * b
  {}

  lemma ExtractHalves(op: Op, common: Option<Expr>, l: Expr, r: Expr, b: Expr, x: Extraction, y: Extraction)
    requires Extracted(op, common, l, b, x) && Extracted(op, x.common, r, x.b, y)
    ensures Extracted(op, common, Bin(op, l, r), b, Extraction(y.common, Bin(op, x.a, y.a), y.b))
  {
    LiveOfHalves(op, l, r);
    LiveOfHalves(op, x.a, y.a);
    CancelSums(Live(op, l), Live(op, r), Live(op, b));
    ExtractSums(Live(op, l), Live(op, r), Live(op, b), LiveOpt(op, common));
  }

  /** The same with the roles exchanged. */
  lemma ExtractOtherHalves(op: Op, common: Option<Expr>, a: Expr, l: Expr, r: Expr, x: Extraction, y: Extraction)
    requires Extracted(op, common, a, l, x) && Extracted(op, x.common, x.a, r, y)
    ensures Extracted(op, common, a, Bin(op, l, r), Extraction(y.common, y.a, Bin(op, x.b, y.b)))
  {
    ExchangeExtracted(op, common, a, l, x);
    ExchangeExtracted(op, x.common, x.a, r, y);
    ExtractHalves(op, common, l, r, a, Extraction(x.common, x.b, x.a), Extraction(y.common, y.b, y.a));
    ExchangeExtracted(op, common, Bin(op, l, r), a, Extraction(y.common, Bin(op, x.b, y.b), y.a));
  }

  lemma ExchangeExtracted(op: Op, common: Option<Expr>, a: Expr, b: Expr, x: Extraction)
    requires Extracted(op, common, a, b, x)
    ensures Extracted(op, common, b, a, Extraction(x.common, x.b, x.a))
  {
    Commute(Live(op, a), Live(op, b));
  }

  lemma Commute(x: multiset<Shape>, y: multiset<Shape>)
    ensures x * y == y * x
  {}

  lemma ExtractSame(op: Op, common: Option<Expr>, a: Expr, b: Expr)
    requires !IsOp(op, a) && !IsOp(op, b) && Open(op, a) && Open(op, b) && OptOpen(op, common)
    requires ShapeOf(a) == ShapeOf(b) && (IsYn(a) <==> IsYn(b))
    ensures Extracted(op, common, a, b, Extraction(Alloc(op, common, Some(a)), Sym(Identity(op)), Sym(Identity(op))))
  {
    LiveOfOperand(op, a);
    LiveOfOperand(op, b);
    LiveOfOperand(op, Sym(Identity(op)));
    TwoShapes(Live(op, a), Live(op, b), ShapeOf(a), ShapeOf(b));
    WithCommon(op, common, a);
  }

  lemma WithCommon(op: Op, common: Option<Expr>, a: Expr)
    requires Open(op, a) && OptOpen(op, common)
    ensures var c := Alloc(op, common, Some(a)); OptOpen(op, c) && LiveOpt(op, c) == LiveOpt(op, common) + Live(op, a)
  {
    if common.Some? { LiveOfHalves(op, common.value, a); }
  }

  lemma ExtractNone(op: Op, common: Option<Expr>, a: Expr, b: Expr)
    requires !IsOp(op, a) && !IsOp(op, b) && Open(op, a) && Open(op, b) && OptOpen(op, common)
    requires ShapeOf(a) != ShapeOf(b)
    ensures Extracted(op, common, a, b, Extraction(common, a, b))
  {
    LiveOfOperand(op, a);
    LiveOfOperand(op, b);
    TwoShapes(Live(op, a), Live(op, b), ShapeOf(a), ShapeOf(b));
  }

  lemma ExtractTwo(op: Op, common: Option<Expr>, a: Expr, b: Expr)
    requires !IsOp(op, a) && !IsOp(op, b) && Open(op, a) && Open(op, b) && OptOpen(op, common)
    ensures Extracted(op, common, a, b, ExtractEq(op, common, a, b))
  {
    ExprEqOperands(op, a, b);
    if ShapeOf(a) == ShapeOf(b) {
      ExtractSame(op, common, a, b);
    } else {
      ExtractNone(op, common, a, b);
    }
  }

  lemma ExprEqOperands(op: Op, a: Expr, b: Expr)
    requires !IsOp(op, a) && !IsOp(op, b) && Tidy(op, a) && Tidy(op, b)
    ensures ExprEq(a, b) <==> ShapeOf(a) == ShapeOf(b)
    ensures ShapeOf(a) == ShapeOf(b) ==> (IsYn(a) <==> IsYn(b))
  {
    ExprEqIff(a, b);
  }

  lemma TwoShapes(x: multiset<Shape>, y: multiset<Shape>, c: Shape, d: Shape)
    requires (x == multiset{} || x == multiset{c}) && (y == multiset{} || y == multiset{d})
    ensures c != d || x == multiset{} || y == multiset{} ==> x - y == x && y - x == y && x * y == multiset{}
    ensures c == d && x == multiset{c} && y == multiset{d} ==> x - y == multiset{} && y - x == multiset{} && x * y == x
  {}

  /** expr_extract_eq takes out all that both sides have, as often as both have it. */
  lemma {:induction false} ExtractAll(op: Op, common: Option<Expr>, a: Expr, b: Expr)
    requires Open(op, a) && Open(op, b) && OptOpen(op, common)
    ensures Extracted(op, common, a, b, ExtractEq(op, common, a, b))
    decreases Size(a) + Size(b)
  {
    if IsOp(op, a) {
      var x := ExtractEq(op, common, a.left, b);
      ExtractAll(op, common, a.left, b);
      ExtractAll(op, x.common, a.right, x.b);
      ExtractHalves(op, common, a.left, a.right, b, x, ExtractEq(op, x.common, a.right, x.b));
    } else if IsOp(op, b) {
      var x := ExtractEq(op, common, a, b.left);
      ExtractAll(op, common, a, b.left);
      ExtractAll(op, x.common, x.a, b.right);
      ExtractOtherHalves(op, common, a, b.left, b.right, x, ExtractEq(op, x.common, x.a, b.right));
    } else {
      ExtractTwo(op, common, a, b);
    }
  }

  /** Of a chain without constants inside, expr_extract_eq leaves nothing if and only if
      the other side has all of its operands. */
  lemma NothingLeftIff(op: Op, a: Expr, b: Expr)
    requires Pure(a) && !IsYn(a) && Open(op, b)
    ensures ExtractCommon(op, a, b).a == Sym(Identity(op)) <==> Live(op, a) <= Live(op, b)
  {
    PureIsTidy(op, a);
    ExtractAll(op, None, a, b);
    var x := ExtractEq(op, None, a, b);
    LeftIff(op, x, Live(op, a), Live(op, b));
  }

  lemma LeftIff(op: Op, x: Extraction, a: multiset<Shape>, b: multiset<Shape>)
    requires a != multiset{} && Open(op, x.a) && Live(op, x.a) == a - b && LiveOpt(op, x.common) == multiset{} + a * b
    ensures (if x.common.None? then x.a else EliminateYn(x.a)) == Sym(Identity(op)) <==> a <= b
  {
    NoneLeft(a, b);
    SomeShared(a, b);
    if x.common.None? {
      LiveOfOperand(op, Sym(Identity(op)));
    } else {
      TidyReduced(op, x.a);
      assert Reduct(op, false, a - b, EliminateYn(x.a));
    }
  }

  lemma NoneLeft(x: multiset<Shape>, y: multiset<Shape>)
    ensures x - y == multiset{} <==> x <= y
  {
    if x - y == multiset{} {
      forall s ensures x[s] <= y[s] { assert s !in x - y; }
    }
  }

  lemma SomeShared(x: multiset<Shape>, y: multiset<Shape>)
    requires x != multiset{}
    ensures multiset{} + x * y == multiset{} ==> !(x <= y)
  {
    if x <= y {
      var s :| s in x;
      assert s in multiset{} + x * y;
    }
  }

  /** `A || n`. */
  function OrNo(a: Expr): Expr { Bin(OrOp, a, Sym(SymNo)) }

  function Both(a: Expr, b: Expr): Expr { Bin(AndOp, a, b) }

  lemma LiveOrNo(s: Expr)
    requires s.Sym? && !IsYn(s)
    ensures Live(OrOp, OrNo(s)) == multiset{Leaf(s)} && Tidy(OrOp, OrNo(s)) && !IsDecided(OrOp, OrNo(s))
  {
    LiveOfHalves(OrOp, s, Sym(SymNo));
    LiveOfOperand(OrOp, s);
    LiveOfOperand(OrOp, Sym(SymNo));
  }

  lemma OrNoEqual(s: Expr, t: Expr)
    requires s.Sym? && !IsYn(s) && t.Sym? && !IsYn(t)
    ensures ExprEq(OrNo(s), OrNo(t)) <==> s == t
    ensures EliminateYn(OrNo(s)) == s
  {
    LiveOrNo(s);
    LiveOrNo(t);
    assert Leaf(s) in multiset{Leaf(t)} <==> s == t;
    ChainsEqual(OrOp, OrNo(s), OrNo(t));
  }

  /** One operand against a chain of two. */
  lemma AgainstTwo(op: Op, x: Expr, l: Expr, r: Expr)
    requires !IsOp(op, x) && !IsOp(op, l) && !IsOp(op, r) && !IsYn(x)
    ensures CancelPairs(op, x, Bin(op, l, r)) ==
      if ExprEq(x, l) then (Sym(Identity(op)), Bin(op, Sym(Identity(op)), r))
      else if ExprEq(x, r) then (Sym(Identity(op)), Bin(op, l, Sym(Identity(op))))
      else (x, Bin(op, l, r))
  {
    DeadLeft(op, Sym(Identity(op)), r);
  }

  /** With constants inside, expr_eq is not transitive: `S && T` and `(S || n) && (T || n)`
      are both found equal to `S && (T || n)`, but not to each other. */
  lemma EqualIsNotTransitive(s: Expr, t: Expr)
    requires s.Sym? && !IsYn(s) && t.Sym? && !IsYn(t) && s != t
    ensures var x, y, z := Both(OrNo(s), OrNo(t)), Both(s, OrNo(t)), Both(s, t);
      ExprEq(y, x) && ExprEq(z, y) && !ExprEq(x, z)
  {
    OrNoEqual(s, t); OrNoEqual(t, s); OrNoEqual(t, t);
    var u, v, y := OrNo(s), OrNo(t), Sym(SymYes);
    ExprEqReflexive(s);
    AgainstTwo(AndOp, s, u, v); AgainstTwo(AndOp, v, u, v);
    assert CancelPairs(AndOp, Both(s, v), Both(u, v)) == (Both(s, y), Both(u, y));
    AgainstTwo(AndOp, s, s, v); AgainstTwo(AndOp, t, y, v);
    assert CancelPairs(AndOp, Both(s, t), Both(s, v)) == (Both(y, t), Both(y, v));
    AgainstTwo(AndOp, u, s, t); AgainstTwo(AndOp, v, s, t);
    assert CancelPairs(AndOp, Both(u, v), Both(s, t)) == (Both(u, v), Both(s, t));
    assert EliminateEq(Both(u, v), Both(s, t)) == (Both(s, t), Both(s, t));
  }

  function Three(op: Op, a: Expr, b: Expr, c: Expr): Expr { Bin(op, Bin(op, a, b), c) }

  lemma ThreeOperands(op: Op, a: Expr, b: Expr, c: Expr)
    requires !IsOp(op, a) && !IsOp(op, b) && !IsOp(op, c)
    ensures Operands(op, Three(op, a, b, c)) == [a, b, c]
  {
    OperandsOfChain(op, a);
    OperandsOfChain(op, b);
    OperandsOfChain(op, c);
    assert Operands(op, Bin(op, a, b)) == [a] + [b];
  }

  lemma ThreeRotated(op: Op, x: Expr, y: Expr, z: Expr)
    requires !IsOp(op, x) && !IsOp(op, y) && !IsOp(op, z)
    ensures multiset(Operands(op, Three(op, y, z, x))) == multiset(Operands(op, Three(op, x, y, z)))
  {
    ThreeOperands(op, y, z, x);
    ThreeOperands(op, x, y, z);
  }

  /** A chain against a longer one, first to last. */
  lemma AgainstFront(op: Op, x: Expr, m: Expr, r: Expr)
    requires !IsOp(op, x)
    ensures var y := CancelPairs(op, x, m);
      IsYn(y.0) ==> CancelPairs(op, x, Bin(op, m, r)) == (y.0, Bin(op, y.1, r))
    ensures CancelPairs(op, x, m) == (x, m) ==>
      CancelPairs(op, x, Bin(op, m, r)) == (CancelPairs(op, x, r).0, Bin(op, m, CancelPairs(op, x, r).1))
  {
    var y := CancelPairs(op, x, m);
    if IsYn(y.0) { DeadLeft(op, y.0, r); }
  }

  /** The first of `y op z op x` takes the first of `x op y op z`, the second the second,
      and the last finds no partner. */
  lemma Mismatched(op: Op, x: Expr, y: Expr, z: Expr)
    requires !IsOp(op, x) && !IsOp(op, y) && !IsOp(op, z) && !x.Sym? && !y.Sym? && !z.Sym?
    requires ExprEq(y, x) && ExprEq(z, y) && !ExprEq(x, z)
    ensures var d := Sym(Identity(op));
      CancelPairs(op, Three(op, y, z, x), Three(op, x, y, z)) == (Three(op, d, d, x), Three(op, d, d, z))
  {
    var d := Sym(Identity(op));
    AgainstTwo(op, y, x, y);
    AgainstFront(op, y, Bin(op, x, y), z);
    assert CancelPairs(op, y, Three(op, x, y, z)) == (d, Three(op, d, y, z));
    AgainstTwo(op, z, d, y);
    AgainstFront(op, z, Bin(op, d, y), z);
    assert CancelPairs(op, z, Three(op, d, y, z)) == (d, Three(op, d, d, z));
    AgainstTwo(op, x, d, d);
    AgainstFront(op, x, Bin(op, d, d), z);
  }

  /** So the order of the operands can matter then. */
  lemma PermutedCanDiffer(s: Expr, t: Expr)
    requires s.Sym? && !IsYn(s) && t.Sym? && !IsYn(t) && s != t
    ensures var x, y, z := Both(OrNo(s), OrNo(t)), Both(s, OrNo(t)), Both(s, t);
      var a, b := Three(OrOp, y, z, x), Three(OrOp, x, y, z);
      multiset(Operands(OrOp, a)) == multiset(Operands(OrOp, b)) && !ExprEq(a, b)
  {
    var x, y, z, d := Both(OrNo(s), OrNo(t)), Both(s, OrNo(t)), Both(s, t), Sym(SymNo);
    var a, b := Three(OrOp, y, z, x), Three(OrOp, x, y, z);
    ThreeRotated(OrOp, x, y, z);
    EqualIsNotTransitive(s, t);
    Mismatched(OrOp, x, y, z);
    OrNoEqual(s, t);
    OrNoEqual(t, t);
    assert EliminateYn(x) == Both(s, t);
    assert EliminateYn(Three(OrOp, d, d, x)) == EliminateYn(x);
    assert EliminateEq(a, b).0 == Both(s, t);
  }
}
