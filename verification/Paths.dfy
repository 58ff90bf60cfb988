/** Pointers into an expression tree. A `struct expr **` is a path from the root;
    two pointers are the same when the paths are. */
module Paths {
  import opened Tristates
  import opened Exprs
  import opened Equality

  datatype Side = L | R

  type Path = seq<Side>

  function Child(e: Expr, s: Side): (c: Expr)
    requires e.Bin?
    ensures c == e.left || c == e.right
  {
    if s == L then e.left else e.right
  }

  predicate ValidPath(e: Expr, p: Path) {
    p == [] || (e.Bin? && ValidPath(Child(e, p[0]), p[1..]))
  }

  function At(e: Expr, p: Path): Expr
    requires ValidPath(e, p)
  {
    if p == [] then e else At(Child(e, p[0]), p[1..])
  }

  function Put(e: Expr, p: Path, x: Expr): Expr
    requires ValidPath(e, p)
  {
    if p == [] then x
    else if p[0] == L then Bin(e.op, Put(e.left, p[1..], x), e.right)
    else Bin(e.op, e.left, Put(e.right, p[1..], x))
  }

  lemma {:induction false} PutAt(e: Expr, p: Path, x: Expr)
    requires ValidPath(e, p)
    ensures ValidPath(Put(e, p, x), p)
    ensures At(Put(e, p, x), p) == x
    ensures Put(e, p, At(e, p)) == e
    ensures forall y :: Put(Put(e, p, x), p, y) == Put(e, p, y)
  {
    if p != [] { PutAt(Child(e, p[0]), p[1..], x); }
  }

  lemma {:induction false} PathConcat(e: Expr, p: Path, q: Path)
    requires ValidPath(e, p)
    ensures ValidPath(e, p + q) <==> ValidPath(At(e, p), q)
    ensures ValidPath(e, p + q) ==> At(e, p + q) == At(At(e, p), q)
    ensures ValidPath(e, p + q) ==> forall x :: Put(e, p + q, x) == Put(e, p, Put(At(e, p), q, x))
  {
    if p == [] {
      assert p + q == q;
    } else {
      assert (p + q)[0] == p[0] && (p + q)[1..] == p[1..] + q;
      PathConcat(Child(e, p[0]), p[1..], q);
    }
  }

  lemma {:induction false} PutSize(e: Expr, p: Path, x: Expr)
    requires ValidPath(e, p)
    ensures Size(Put(e, p, x)) == Size(e) - Size(At(e, p)) + Size(x)
    ensures p != [] ==> Size(At(e, p)) < Size(e)
  {
    if p != [] { PutSize(Child(e, p[0]), p[1..], x); }
  }

  /** A constant operand anywhere in reach of expr_eliminate_yn. */
  lemma {:induction false} PutNotYnFree(e: Expr, p: Path, x: Expr)
    requires ValidPath(e, p) && p != [] && (IsYn(x) || !YnFree(x))
    ensures !YnFree(Put(e, p, x))
  {
    if |p| > 1 { PutNotYnFree(Child(e, p[0]), p[1..], x); }
  }

  /** The path leads through operators `op` only: it stays in one chain. */
  predicate OnChain(op: Op, e: Expr, p: Path)
    ensures OnChain(op, e, p) ==> ValidPath(e, p)
  {
    p == [] || (IsOp(op, e) && OnChain(op, Child(e, p[0]), p[1..]))
  }

  /** The path leads to an operand of the chain. */
  predicate IsOperand(op: Op, e: Expr, p: Path) { OnChain(op, e, p) && !IsOp(op, At(e, p)) }

  lemma {:induction false} ChainStep(op: Op, e: Expr, p: Path, s: Side)
    requires OnChain(op, e, p) && IsOp(op, At(e, p))
    ensures OnChain(op, e, p + [s]) && At(e, p + [s]) == Child(At(e, p), s)
  {
    if p != [] {
      assert (p + [s])[1..] == p[1..] + [s];
      ChainStep(op, Child(e, p[0]), p[1..], s);
    }
  }

  /** Number of operands of a chain. */
  function Width(op: Op, e: Expr): (n: nat)
    ensures n >= 1
  {
    if IsOp(op, e) then Width(op, e.left) + Width(op, e.right) else 1
  }

  /** Chains that differ only in their operands. */
  predicate SameChain(op: Op, a: Expr, b: Expr) {
    if IsOp(op, a)
    then IsOp(op, b) && SameChain(op, a.left, b.left) && SameChain(op, a.right, b.right)
    else !IsOp(op, b)
  }

  lemma {:induction false} SameChainRefl(op: Op, a: Expr)
    ensures SameChain(op, a, a)
  {
    if IsOp(op, a) {
      SameChainRefl(op, a.left);
      SameChainRefl(op, a.right);
    }
  }

  lemma {:induction false} SameChainTrans(op: Op, a: Expr, b: Expr, c: Expr)
    requires SameChain(op, a, b) && SameChain(op, b, c)
    ensures SameChain(op, a, c)
  {
    if IsOp(op, a) {
      SameChainTrans(op, a.left, b.left, c.left);
      SameChainTrans(op, a.right, b.right, c.right);
    }
  }

  lemma {:induction false} SameChainAt(op: Op, a: Expr, b: Expr, p: Path)
    requires SameChain(op, a, b) && OnChain(op, a, p)
    ensures OnChain(op, b, p) && SameChain(op, At(a, p), At(b, p))
    ensures IsOp(op, At(a, p)) <==> IsOp(op, At(b, p))
    ensures Width(op, At(a, p)) == Width(op, At(b, p))
  {
    if p == [] { SameWidth(op, a, b); } else { SameChainAt(op, Child(a, p[0]), Child(b, p[0]), p[1..]); }
  }

  lemma {:induction false} SameWidth(op: Op, a: Expr, b: Expr)
    requires SameChain(op, a, b)
    ensures Width(op, a) == Width(op, b)
  {
    if IsOp(op, a) {
      SameWidth(op, a.left, b.left);
      SameWidth(op, a.right, b.right);
    }
  }

  lemma {:induction false} SameChainPut(op: Op, e: Expr, p: Path, x: Expr)
    requires IsOperand(op, e, p) && !IsOp(op, x)
    ensures SameChain(op, e, Put(e, p, x))
  {
    if p != [] {
      SameChainPut(op, Child(e, p[0]), p[1..], x);
      SameChainRefl(op, e.left);
      SameChainRefl(op, e.right);
    }
  }

  /** Writing one operand leaves the others. */
  lemma {:induction false} PutElsewhere(op: Op, e: Expr, p: Path, q: Path, x: Expr)
    requires IsOperand(op, e, p) && IsOperand(op, e, q) && p != q
    ensures ValidPath(Put(e, p, x), q) && At(Put(e, p, x), q) == At(e, q)
    ensures p != [] && q != []
  {
    if p != [] && q != [] && p[0] == q[0] {
      assert p[1..] != q[1..] by { assert p == [p[0]] + p[1..] && q == [q[0]] + q[1..]; }
      PutElsewhere(op, Child(e, p[0]), p[1..], q[1..], x);
    }
  }

  /** A chain is worth one of its parts combined with all the rest. */
  lemma {:induction false} RestOfChain(op: Op, e: Expr, p: Path, x: Expr, env: Env) returns (c: Tristate)
    requires FixesYmn(env) && OnChain(op, e, p)
    ensures Value(e, env) == Apply(op, Value(At(e, p), env), c)
    ensures Value(Put(e, p, x), env) == Apply(op, Value(x, env), c)
  {
    if p == [] {
      c := env.tri(Identity(op));
      ConstantOperand(op, Sym(Identity(op)), env);
    } else {
      var d := RestOfChain(op, Child(e, p[0]), p[1..], x, env);
      var other := Value(Child(e, if p[0] == L then R else L), env);
      c := Apply(op, d, other);
      Regroup(op, Value(At(e, p), env), d, other, other);
      Regroup(op, Value(x, env), d, other, other);
      Regroup(op, Value(Child(e, p[0]), env), other, other, other);
      Regroup(op, Apply(op, Value(x, env), d), other, other, other);
    }
  }

  /** A chain is worth two of its operands combined with all the rest. */
  lemma {:induction false} RestOfPair(op: Op, e: Expr, p: Path, q: Path, x: Expr, y: Expr, env: Env)
    returns (c: Tristate)
    requires FixesYmn(env) && IsOperand(op, e, p) && IsOperand(op, e, q) && p != q
    ensures ValidPath(Put(e, p, x), q)
    ensures Value(e, env) == Apply(op, Apply(op, Value(At(e, p), env), Value(At(e, q), env)), c)
    ensures Value(Put(Put(e, p, x), q, y), env) == Apply(op, Apply(op, Value(x, env), Value(y, env)), c)
  {
    PutElsewhere(op, e, p, q, x);
    var vp, vq, vx, vy := Value(At(e, p), env), Value(At(e, q), env), Value(x, env), Value(y, env);
    if p[0] == q[0] {
      assert p[1..] != q[1..] by { assert p == [p[0]] + p[1..] && q == [q[0]] + q[1..]; }
      var d := RestOfPair(op, Child(e, p[0]), p[1..], q[1..], x, y, env);
      var other := Value(Child(e, if p[0] == L then R else L), env);
      c := Apply(op, d, other);
      Regroup(op, Apply(op, vp, vq), d, other, other);
      Regroup(op, Apply(op, vx, vy), d, other, other);
      Regroup(op, Value(Child(e, p[0]), env), other, other, other);
      Regroup(op, Apply(op, Apply(op, vx, vy), d), other, other, other);
    } else {
      var d1 := RestOfChain(op, Child(e, p[0]), p[1..], x, env);
      var d2 := RestOfChain(op, Child(e, q[0]), q[1..], y, env);
      c := Apply(op, d1, d2);
      Regroup(op, vp, d1, vq, d2);
      Regroup(op, vx, d1, vy, d2);
      Regroup(op, Value(Child(e, p[0]), env), Value(Child(e, q[0]), env), d1, d2);
      Regroup(op, Apply(op, vx, d1), Apply(op, vy, d2), d1, d2);
    }
  }
}
