/** Trees of menu entries linked by `next`, `list` and `parent`, as the pointers
    store them: entries are numbers, NULL is -1. */
module Forests {
  import opened Sequences

  /** A chain of siblings: the first entry, what hangs below it, the later siblings. */
  datatype Forest = Nil | Node(id: nat, kids: Forest, rest: Forest)

  /** Document order. */
  function Pre(f: Forest): seq<nat> {
    match f
    case Nil => []
    case Node(i, k, r) => [i] + Pre(k) + Pre(r)
  }

  function Ids(f: Forest): set<nat> {
    match f
    case Nil => {}
    case Node(i, k, r) => {i} + Ids(k) + Ids(r)
  }

  /** The siblings of the chain itself. */
  function Roots(f: Forest): (s: set<nat>)
    ensures s <= Ids(f)
  {
    if f.Nil? then {} else {f.id} + Roots(f.rest)
  }

  function Count(f: Forest): nat {
    match f
    case Nil => 0
    case Node(_, k, r) => 1 + Count(k) + Count(r)
  }

  ghost predicate NoDup(f: Forest) {
    match f
    case Nil => true
    case Node(i, k, r) => i !in Ids(k) && i !in Ids(r) && Ids(k) !! Ids(r) && NoDup(k) && NoDup(r)
  }

  function Append(f: Forest, g: Forest): Forest {
    match f
    case Nil => g
    case Node(i, k, r) => Node(i, k, Append(r, g))
  }

  function Head(f: Forest, tail: int): int { if f.Nil? then tail else f.id }

  function LastRoot(f: Forest): nat
    requires f.Node?
  {
    if f.rest.Nil? then f.id else LastRoot(f.rest)
  }

  /** The pointers `next` and `list` hold the chain `f` from `head` on, up to `tail`. */
  ghost predicate Linked(next: seq<int>, list: seq<int>, f: Forest, head: int, tail: int) {
    match f
    case Nil => head == tail
    case Node(i, k, r) =>
      && head == i && i < |next| && i < |list|
      && Linked(next, list, k, list[i], -1)
      && Linked(next, list, r, next[i], tail)
  }

  /** Every entry of the chain has the parent `p`, every other the entry above it. */
  ghost predicate Owned(parent: seq<int>, f: Forest, p: int) {
    match f
    case Nil => true
    case Node(i, k, r) => i < |parent| && parent[i] == p && Owned(parent, k, i) && Owned(parent, r, p)
  }

  ghost predicate SameOn(ids: set<nat>, a: seq<int>, b: seq<int>) {
    |a| == |b| && forall i :: i in ids && i < |a| ==> a[i] == b[i]
  }

  lemma {:induction false} AppendPre(f: Forest, g: Forest)
    ensures Pre(Append(f, g)) == Pre(f) + Pre(g)
    ensures Count(Append(f, g)) == Count(f) + Count(g)
  {
    if f.Node? {
      AppendPre(f.rest, g);
      Concat3([f.id] + Pre(f.kids), Pre(f.rest), Pre(g));
    }
  }

  lemma {:induction false} AppendIds(f: Forest, g: Forest)
    ensures Ids(Append(f, g)) == Ids(f) + Ids(g)
    ensures NoDup(Append(f, g)) <==> NoDup(f) && NoDup(g) && Ids(f) !! Ids(g)
  {
    if f.Node? { AppendIds(f.rest, g); }
  }

  lemma AppendFacts(f: Forest, g: Forest)
    ensures Pre(Append(f, g)) == Pre(f) + Pre(g)
    ensures Ids(Append(f, g)) == Ids(f) + Ids(g)
    ensures Count(Append(f, g)) == Count(f) + Count(g)
    ensures NoDup(Append(f, g)) <==> NoDup(f) && NoDup(g) && Ids(f) !! Ids(g)
  {
    AppendPre(f, g);
    AppendIds(f, g);
  }

  lemma {:induction false} RootsAppend(f: Forest, g: Forest)
    ensures Roots(Append(f, g)) == Roots(f) + Roots(g)
  {
    if f.Node? { RootsAppend(f.rest, g); }
  }

  lemma {:induction false} PreFacts(f: Forest)
    ensures forall i :: i in Pre(f) <==> i in Ids(f)
    ensures |Pre(f)| == Count(f)
  {
    if f.Node? {
      PreFacts(f.kids);
      PreFacts(f.rest);
    }
  }

  lemma {:induction false} LinkedAppend(next: seq<int>, list: seq<int>, f: Forest, g: Forest, head: int, tail: int)
    ensures Linked(next, list, Append(f, g), head, tail) <==>
            Linked(next, list, f, head, Head(g, tail)) && Linked(next, list, g, Head(g, tail), tail)
  {
    if f.Node? && f.id < |next| { LinkedAppend(next, list, f.rest, g, next[f.id], tail); }
    if f.Nil? && g.Node? {}
  }

  lemma {:induction false} OwnedAppend(parent: seq<int>, f: Forest, g: Forest, p: int)
    ensures Owned(parent, Append(f, g), p) <==> Owned(parent, f, p) && Owned(parent, g, p)
  {
    if f.Node? { OwnedAppend(parent, f.rest, g, p); }
  }

  /** Pointers outside a chain do not matter to it. */
  lemma {:induction false} LinkedFrame(next: seq<int>, list: seq<int>, next': seq<int>, list': seq<int>,
                                       f: Forest, head: int, tail: int)
    requires Linked(next, list, f, head, tail) && SameOn(Ids(f), next, next') && SameOn(Ids(f), list, list')
    ensures Linked(next', list', f, head, tail)
  {
    if f.Node? {
      LinkedFrame(next, list, next', list', f.kids, list[f.id], -1);
      LinkedFrame(next, list, next', list', f.rest, next[f.id], tail);
    }
  }

  lemma {:induction false} OwnedFrame(parent: seq<int>, parent': seq<int>, f: Forest, p: int)
    requires Owned(parent, f, p) && SameOn(Ids(f), parent, parent')
    ensures Owned(parent', f, p)
  {
    if f.Node? {
      OwnedFrame(parent, parent', f.kids, f.id);
      OwnedFrame(parent, parent', f.rest, p);
    }
  }

  lemma {:induction false} LastRootFacts(f: Forest)
    requires f.Node?
    ensures LastRoot(f) in Ids(f)
  {
    if f.rest.Node? { LastRootFacts(f.rest); }
  }

  /** Redirecting the last pointer of a chain moves its tail. */
  lemma {:induction false} LinkedCut(next: seq<int>, list: seq<int>, f: Forest, head: int, tail: int, tail': int)
    requires f.Node? && NoDup(f) && Linked(next, list, f, head, tail)
    ensures LastRoot(f) < |next| && next[LastRoot(f)] == tail
    ensures Linked(next[LastRoot(f) := tail'], list, f, head, tail')
  {
    LastRootFacts(f);
    if f.rest.Node? {
      LastRootFacts(f.rest);
      LinkedCut(next, list, f.rest, next[f.id], tail, tail');
      LinkedFrame(next, list, next[LastRoot(f) := tail'], list, f.kids, list[f.id], -1);
    } else {
      LinkedFrame(next, list, next[f.id := tail'], list, f.kids, list[f.id], -1);
    }
  }

  lemma {:induction false} LastOfAppend(f: Forest, g: Forest)
    requires g.Node?
    ensures Append(f, g).Node? && LastRoot(Append(f, g)) == LastRoot(g)
  {
    if f.Node? { LastOfAppend(f.rest, g); }
  }

  lemma {:induction false} LinkedBound(next: seq<int>, list: seq<int>, f: Forest, head: int, tail: int)
    requires Linked(next, list, f, head, tail)
    ensures forall i :: i in Ids(f) ==> i < |next| && i < |list|
  {
    if f.Node? {
      LinkedBound(next, list, f.kids, list[f.id], -1);
      LinkedBound(next, list, f.rest, next[f.id], tail);
    }
  }

  ghost predicate Distinct(s: seq<nat>) { forall i, j :: 0 <= i < j < |s| ==> s[i] != s[j] }

  lemma DistinctConcat(a: seq<nat>, b: seq<nat>)
    ensures Distinct(a + b) <==> Distinct(a) && Distinct(b) && forall x :: x in a ==> x !in b
  {
    var c := a + b;
    assert forall i :: 0 <= i < |a| ==> c[i] == a[i];
    assert forall i :: 0 <= i < |b| ==> c[|a| + i] == b[i];
    if Distinct(c) {
      forall i, j | 0 <= i < j < |b| ensures b[i] != b[j] {
        assert c[|a| + i] != c[|a| + j];
      }
      forall i, j | 0 <= i < |a| && 0 <= j < |b| ensures a[i] != b[j] {
        assert c[i] != c[|a| + j];
      }
    } else {
      var i, j :| 0 <= i < j < |c| && c[i] == c[j];
      assert i >= |a| ==> b[i - |a|] == b[j - |a|];
      assert i < |a| <= j ==> a[i] in a && b[j - |a|] in b;
    }
  }

  /** Having no entry twice can be read off the document order. */
  lemma {:induction false} NoDupIsDistinct(f: Forest)
    ensures NoDup(f) <==> Distinct(Pre(f))
  {
    if f.Node? {
      NoDupIsDistinct(f.kids);
      NoDupIsDistinct(f.rest);
      PreFacts(f.kids);
      PreFacts(f.rest);
      DistinctConcat([f.id] + Pre(f.kids), Pre(f.rest));
      DistinctConcat([f.id], Pre(f.kids));
    }
  }

  /** Trees with the same document order hold the same entries. */
  lemma SamePre(f: Forest, g: Forest)
    requires Pre(f) == Pre(g) && NoDup(f)
    ensures Ids(f) == Ids(g) && Count(f) == Count(g) && NoDup(g)
  {
    PreFacts(f);
    PreFacts(g);
    NoDupIsDistinct(f);
    NoDupIsDistinct(g);
  }

  ghost predicate SameOff(ids: set<nat>, a: seq<int>, b: seq<int>) {
    |a| == |b| && forall i :: 0 <= i < |a| && i !in ids ==> a[i] == b[i]
  }

  /** The three pointers of all entries. */
  datatype Links = Links(next: seq<int>, list: seq<int>, parent: seq<int>)

  ghost predicate Holds(l: Links, f: Forest, head: int, tail: int, owner: int) {
    Linked(l.next, l.list, f, head, tail) && Owned(l.parent, f, owner)
  }

  ghost predicate Kept(ids: set<nat>, a: Links, b: Links) {
    SameOff(ids, a.next, b.next) && SameOff(ids, a.list, b.list) && SameOff(ids, a.parent, b.parent)
  }

  lemma KeptTrans(ids: set<nat>, ids': set<nat>, a: Links, b: Links, c: Links)
    requires Kept(ids, a, b) && Kept(ids', b, c) && ids' <= ids
    ensures Kept(ids, a, c)
  {}

  lemma HoldsFrame(a: Links, b: Links, ids: set<nat>, f: Forest, head: int, tail: int, owner: int)
    requires Holds(a, f, head, tail, owner) && Kept(ids, a, b) && ids !! Ids(f)
    ensures Holds(b, f, head, tail, owner)
  {
    LinkedBound(a.next, a.list, f, head, tail);
    LinkedFrame(a.next, a.list, b.next, b.list, f, head, tail);
    OwnedFrame(a.parent, b.parent, f, owner);
  }

  lemma HoldsAppend(l: Links, f: Forest, g: Forest, head: int, tail: int, owner: int)
    ensures Holds(l, Append(f, g), head, tail, owner) <==>
            Holds(l, f, head, Head(g, tail), owner) && Holds(l, g, Head(g, tail), tail, owner)
  {
    LinkedAppend(l.next, l.list, f, g, head, tail);
    OwnedAppend(l.parent, f, g, owner);
  }

  /** An entry taken out of its chain, with everything below it. */
  function Single(f: Forest): Forest
    requires f.Node?
  {
    Node(f.id, f.kids, Nil)
  }

  lemma SingleFacts(l: Links, f: Forest, tail: int, owner: int, p: int)
    requires f.Node? && NoDup(f) && Holds(l, f, f.id, tail, owner)
    ensures f.id < |l.parent| && f.id < |l.next| && f.id < |l.list|
    ensures var l2 := l.(parent := l.parent[f.id := p]);
            && Holds(l2, Single(f), f.id, l2.next[f.id], p)
            && Holds(l2, f.rest, l2.next[f.id], tail, owner)
  {
    var l2 := l.(parent := l.parent[f.id := p]);
    HoldsFrame(l, l2, {f.id}, f.rest, l.next[f.id], tail, owner);
    OwnedFrame(l.parent, l2.parent, f.kids, f.id);
  }

  lemma SinglePre(f: Forest)
    requires f.Node?
    ensures Pre(f) == Pre(Single(f)) + Pre(f.rest) && Ids(f) == Ids(Single(f)) + Ids(f.rest)
    ensures NoDup(f) ==> NoDup(Single(f)) && Ids(Single(f)) !! Ids(f.rest)
  {
    assert Pre(Single(f)) == [f.id] + Pre(f.kids);
  }
}
