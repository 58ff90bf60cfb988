/** Facts about sequences that the verifier is not left to find. */
module Sequences {
  lemma Concat3<T>(a: seq<T>, b: seq<T>, c: seq<T>)
    ensures (a + b) + c == a + (b + c)
  {}

  lemma Drop<T>(a: seq<T>, b: seq<T>)
    ensures (a + b)[|a|..] == b && (a + b)[..|a|] == a
  {}

  lemma SliceOfSlice<T>(s: seq<T>, a: nat, i: nat, j: nat)
    requires i <= j && a + j <= |s|
    ensures s[a..][i..j] == s[a + i..a + j] && s[a..][..j] == s[a..a + j] && s[a..][j..] == s[a + j..]
  {}

  /** The first element of what is to come joins what is done. */
  lemma MoveOne<T>(all: seq<T>, done: seq<T>, todo: seq<T>)
    requires all == done + todo && todo != []
    ensures |done| < |all| && all[|done|] == todo[0] && all == (done + [todo[0]]) + todo[1..]
  {}

  lemma FirstAndRest<T>(s: seq<T>, x: T, rest: seq<T>)
    requires s == [x] + rest
    ensures s != [] && s[0] == x && s[1..] == rest
  {}
}
