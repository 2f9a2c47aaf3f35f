/** Which objects a ledger keeps alive: on an acyclic heap the live objects are exactly the reachable ones, so a
    cascade frees exactly what lost its last way in.
 */
module Reachability {
  import opened Ledger

  /** Objects held from outside, and interned ones. */
  ghost predicate IsRoot(objs: map<Id, Cell>, owners: multiset<Id>, x: Id) {
    x in objs && (x in owners || objs[x].intern)
  }

  ghost predicate ReachIn(objs: map<Id, Cell>, held: Held, owners: multiset<Id>, x: Id, n: nat)
    decreases n
  {
    || IsRoot(objs, owners, x)
    || (n > 0 && exists p :: p in held && x in held[p] && ReachIn(objs, held, owners, p, n - 1))
  }

  ghost predicate Reachable(objs: map<Id, Cell>, held: Held, owners: multiset<Id>, x: Id) {
    exists n: nat :: ReachIn(objs, held, owners, x, n)
  }

  lemma RankBound(ids: set<Id>, rank: Id -> nat) returns (b: nat)
    ensures forall x :: x in ids ==> rank(x) <= b
  {
    b := 0;
    var rest := ids;
    while rest != {}
      invariant rest <= ids
      invariant forall x :: x in ids && x !in rest ==> rank(x) <= b
      decreases |rest|
    {
      var x :| x in rest;
      if rank(x) > b { b := rank(x); }
      rest := rest - {x};
    }
  }

  lemma {:induction false} CountedIsReachable(objs: map<Id, Cell>, dying: set<Id>, held: Held, owners: multiset<Id>, open: set<Id>,
                                              rank: Id -> nat, b: nat, x: Id)
    requires Balanced(objs, dying, held, owners, open) && Ranked(held, rank) && x in held
    requires forall y :: y in held ==> rank(y) <= b
    ensures ReachIn(objs, held, owners, x, b - rank(x))
    decreases b - rank(x)
  {
    hide Refs, Total;
    if !IsRoot(objs, owners, x) {
      assert x in owners + Total(held);
      var p := TotalMember(held, x);
      CountedIsReachable(objs, dying, held, owners, open, rank, b, p);
      ReachMonotone(objs, held, owners, p, b - rank(p), b - rank(x) - 1);
    }
  }

  lemma {:induction false} ReachMonotone(objs: map<Id, Cell>, held: Held, owners: multiset<Id>, x: Id, n: nat, m: nat)
    requires n <= m && ReachIn(objs, held, owners, x, n)
    ensures ReachIn(objs, held, owners, x, m)
    decreases n
  {
    if !IsRoot(objs, owners, x) {
      var p :| p in held && x in held[p] && ReachIn(objs, held, owners, p, n - 1);
      ReachMonotone(objs, held, owners, p, n - 1, m - 1);
    }
  }

  /** No garbage: whatever is live is reachable. */
  lemma LiveIsReachable(objs: map<Id, Cell>, dying: set<Id>, held: Held, owners: multiset<Id>, open: set<Id>, rank: Id -> nat, x: Id)
    requires Balanced(objs, dying, held, owners, open) && Ranked(held, rank) && x in held
    ensures Reachable(objs, held, owners, x)
  {
    var b := RankBound(held.Keys, rank);
    CountedIsReachable(objs, dying, held, owners, open, rank, b, x);
  }

  /** After a cascade, a path in the old heap from what is held now leads only to survivors. */
  lemma {:induction false} ReachableSurvives(objs: map<Id, Cell>, held: Held, objs': map<Id, Cell>, held': Held, owners: multiset<Id>,
                                             dying: set<Id>, open: set<Id>, rank: Id -> nat, top: nat, x: Id, n: nat)
    requires Balanced(objs', dying, held', owners, open) && Shrunk(objs, held, objs', held', dying, rank, top)
    requires held.Keys == objs.Keys - dying && ReachIn(objs, held, owners, x, n)
    requires forall y :: y in dying ==> y in objs ==> !objs[y].intern
    ensures x in held'
    decreases n
  {
    hide Refs, Total;
    if IsRoot(objs, owners, x) {
    } else {
      var p :| p in held && x in held[p] && ReachIn(objs, held, owners, p, n - 1);
      ReachableSurvives(objs, held, objs', held', owners, dying, open, rank, top, p, n - 1);
      assert held'[p] == held[p];
    }
  }

  lemma {:induction false} ReachInSmaller(objs: map<Id, Cell>, held: Held, objs': map<Id, Cell>, held': Held, owners: multiset<Id>,
                                          dying: set<Id>, rank: Id -> nat, top: nat, x: Id, n: nat)
    requires Shrunk(objs, held, objs', held', dying, rank, top) && ReachIn(objs', held', owners, x, n)
    ensures ReachIn(objs, held, owners, x, n)
    decreases n
  {
    if !IsRoot(objs', owners, x) {
      var p :| p in held' && x in held'[p] && ReachIn(objs', held', owners, p, n - 1);
      ReachInSmaller(objs, held, objs', held', owners, dying, rank, top, p, n - 1);
      assert held[p] == held'[p];
    }
  }

  /** A cascade frees exactly the objects that the remaining outside references no longer reach. */
  lemma FreesExactlyUnreachable(objs: map<Id, Cell>, held: Held, objs': map<Id, Cell>, held': Held, owners: multiset<Id>,
                                open: set<Id>, rank: Id -> nat, top: nat, x: Id)
    requires Balanced(objs', {}, held', owners, open) && Shrunk(objs, held, objs', held', {}, rank, top)
    requires held.Keys == objs.Keys && Ranked(held, rank)
    ensures x in objs' <==> Reachable(objs, held, owners, x)
  {
    hide Refs, Total, Shrunk, ReachIn;
    if x in objs' {
      assert x in held' by { LiveKeys(objs', {}, held', owners, open); }
      ShrunkRanked(objs, held, objs', held', {}, rank, top);
      LiveIsReachable(objs', {}, held', owners, open, rank, x);
      var n: nat :| ReachIn(objs', held', owners, x, n);
      ReachInSmaller(objs, held, objs', held', owners, {}, rank, top, x, n);
    }
    if Reachable(objs, held, owners, x) {
      var n: nat :| ReachIn(objs, held, owners, x, n);
      ReachableSurvives(objs, held, objs', held', owners, {}, open, rank, top, x, n);
      HeldInObjs(objs', {}, held', owners, open);
    }
  }

  lemma FreesExactly(objs: map<Id, Cell>, held: Held, objs': map<Id, Cell>, held': Held, owners: multiset<Id>,
                     open: set<Id>, rank: Id -> nat, top: nat)
    requires Balanced(objs', {}, held', owners, open) && Shrunk(objs, held, objs', held', {}, rank, top)
    requires held.Keys == objs.Keys && Ranked(held, rank)
    ensures forall y :: y in objs' <==> Reachable(objs, held, owners, y)
  {
    hide *;
    forall y ensures y in objs' <==> Reachable(objs, held, owners, y) {
      FreesExactlyUnreachable(objs, held, objs', held', owners, open, rank, top, y);
    }
  }

  lemma LiveKeys(objs: map<Id, Cell>, dying: set<Id>, held: Held, owners: multiset<Id>, open: set<Id>)
    requires Balanced(objs, dying, held, owners, open)
    ensures held.Keys == objs.Keys - dying
  {
  }

  /** DohDelete called by the program: the count of what survives stays right, the cascade ends, and what it frees
      is exactly what only the dropped reference kept alive. */
  method DohDelete(h: Heap, x: Id, ghost rank: Id -> nat)
    requires h.Inv({}) && h.dying == {} && x in h.owners && Ranked(h.held, rank)
    modifies h
    ensures h.Inv({}) && h.dying == {} && h.owners == old(h.owners) - multiset{x}
    ensures forall y :: y in h.objs <==> Reachable(old(h.objs), old(h.held), h.owners, y)
    ensures h.objs.Keys <= old(h.objs).Keys && Ranked(h.held, rank)
    ensures Counted(old(h.objs), h.objs) && forall y :: y in h.held ==> y in old(h.held) && h.held[y] == old(h.held)[y]
  {
    hide Balanced, Refs, Total, Reachable;
    ghost var o0, h0 := h.objs, h.held;
    LiveKeys(h.objs, h.dying, h.held, h.owners, {});
    h.Delete(x, rank, {});
    FreesExactly(o0, h0, h.objs, h.held, h.owners, {}, rank, rank(x) + 1);
  }
}
