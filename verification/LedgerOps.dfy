/** Allocation, and the operations on lists and meta data that move references (Source/DOH/memory.c, list.c, base.c):
    each keeps the ledger, and leaves every other object as it was but for its count.
 */
module LedgerOps {
  import opened Wrappers
  import opened Ledger
  import opened Reachability

  // ----- moving references in the ledger

  lemma Cancel(t': multiset<Id>, a: multiset<Id>, t: multiset<Id>, m: multiset<Id>)
    requires t' + a == t + (a + m)
    ensures t' == t + m
  {
    forall y ensures t'[y] == (t + m)[y] {
      assert (t' + a)[y] == (t + (a + m))[y];
    }
  }

  lemma Regroup(t': multiset<Id>, rest: multiset<Id>, t: multiset<Id>, refs: multiset<Id>)
    requires t' + (rest + refs) == t + rest
    ensures t' + refs == t
  {
    forall y ensures (t' + refs)[y] == t[y] {
      assert (t' + (rest + refs))[y] == (t + rest)[y];
    }
  }

  /** One more reference, held by `p`; its cell is still to be changed. */
  lemma AddHeld(objs: map<Id, Cell>, held: Held, owners: multiset<Id>, open: set<Id>, p: Id, x: Id)
    requires Balanced(objs, {}, held, owners, open) && p in held && x in held
    ensures Balanced(objs[x := objs[x].(refcount := objs[x].refcount + 1)], {}, held[p := held[p] + multiset{x}], owners, open + {p})
  {
    hide Refs, Total;
    var objs', held' := objs[x := objs[x].(refcount := objs[x].refcount + 1)], held[p := held[p] + multiset{x}];
    TotalUpdate(held, p, held[p] + multiset{x});
    Cancel(Total(held'), held[p], Total(held), multiset{x});
    RefsSame(objs[x], objs'[x]);
  }

  /** References of `p` become outside ones, for a call that is to drop them. */
  lemma MoveHeld(objs: map<Id, Cell>, held: Held, owners: multiset<Id>, open: set<Id>, p: Id, refs: multiset<Id>)
    requires Balanced(objs, {}, held, owners, open) && p in held && refs <= held[p]
    ensures Balanced(objs, {}, held[p := held[p] - refs], owners + refs, open + {p})
  {
    hide Refs, Total;
    var held' := held[p := held[p] - refs];
    TotalUpdate(held, p, held[p] - refs);
    var rest := held[p] - refs;
    assert held[p] == rest + refs;
    Regroup(Total(held'), rest, Total(held), refs);
    assert owners + refs + Total(held') == owners + (Total(held') + refs);
  }

  /** A store into `p`, which leaves it open; the edit is finished when the new cell holds what the ledger says. */
  lemma StoreCell(objs: map<Id, Cell>, held: Held, owners: multiset<Id>, p: Id, cell: Cell)
    requires Balanced(objs, {}, held, owners, {p}) && p in held
    requires cell.refcount == objs[p].refcount && cell.intern == objs[p].intern
    ensures Balanced(objs[p := cell], {}, held, owners, {p})
    ensures held[p] == Refs(cell) ==> Balanced(objs[p := cell], {}, held, owners, {})
  {
    hide Total, Refs;
    var objs' := objs[p := cell];
    assert objs'.Keys == objs.Keys;
    forall q | q in held ensures objs'[q].refcount == objs[q].refcount && objs'[q].intern == objs[q].intern {
    }
  }

  lemma CellRefs(c: Cell)
    ensures Refs(c) == BodyRefs(c.body) + MetaRefs(c.meta)
  {
    hide BodyRefs, MetaRefs;
  }

  lemma KnownCell(objs: map<Id, Cell>, held: Held, owners: multiset<Id>, open: set<Id>, p: Id)
    requires Balanced(objs, {}, held, owners, open) && p in objs
    ensures p in held && (p !in open ==> held[p] == BodyRefs(objs[p].body) + MetaRefs(objs[p].meta))
    ensures forall x :: x in held[p] ==> x in held
  {
    hide Total, BodyRefs, MetaRefs;
  }

  predicate IsList(h: Heap, l: Id)
    reads h
  {
    l in h.objs && h.objs[l].body.ListBody?
  }

  /** Incref. */
  method Incref(h: Heap, x: Id)
    requires x in h.objs
    modifies h`objs
    ensures h.objs == old(h.objs)[x := old(h.objs)[x].(refcount := old(h.objs)[x].refcount + 1)]
  {
    h.objs := h.objs[x := h.objs[x].(refcount := h.objs[x].refcount + 1)];
  }

  // ----- steps of an edit of object `p`, which is open meanwhile

  ghost method Open(h: Heap, p: Id)
    requires h.Inv({}) && h.dying == {} && p in h.objs
    ensures h.Inv({p}) && p in h.held && h.held[p] == BodyRefs(h.objs[p].body) + MetaRefs(h.objs[p].meta)
    ensures forall x :: x in h.held[p] ==> x in h.held
    ensures h.held.Keys == h.objs.Keys
  {
    hide Total, BodyRefs, MetaRefs;
  }

  /** The edit gives `p` a reference to `x`. */
  method Gain(h: Heap, p: Id, x: Id)
    requires h.Inv({p}) && h.dying == {} && p in h.held && x in h.objs
    modifies h`objs, h`held
    ensures h.Inv({p}) && h.held == old(h.held)[p := old(h.held)[p] + multiset{x}]
    ensures h.objs == old(h.objs)[x := old(h.objs)[x].(refcount := old(h.objs)[x].refcount + 1)]
    ensures Counted(old(h.objs), h.objs)
  {
    hide Balanced, Refs, BodyRefs, MetaRefs, Total;
    KnownCell(h.objs, h.held, h.owners, {p}, x);
    AddHeld(h.objs, h.held, h.owners, {p}, p, x);
    assert {p} + {p} == {p};
    h.held := h.held[p := h.held[p] + multiset{x}];
    Incref(h, x);
  }

  /** The edit is finished. */
  method SetBody(h: Heap, p: Id, body: Body)
    requires h.Inv({p}) && h.dying == {} && p in h.held && p in h.objs
    requires h.held[p] == BodyRefs(body) + MetaRefs(h.objs[p].meta)
    modifies h`objs
    ensures h.Inv({}) && h.objs == old(h.objs)[p := old(h.objs)[p].(body := body)]
  {
    hide Balanced, Refs, BodyRefs, MetaRefs, Total;
    CellRefs(h.objs[p].(body := body));
    StoreCell(h.objs, h.held, h.owners, p, h.objs[p].(body := body));
    h.objs := h.objs[p := h.objs[p].(body := body)];
  }

  /** References of `p` are about to be dropped. */
  ghost method MoveOut(h: Heap, p: Id, refs: multiset<Id>, rank: Id -> nat)
    requires h.Inv({p}) && h.dying == {} && p in h.held && refs <= h.held[p] && Ranked(h.held, rank)
    modifies h`held, h`owners
    ensures h.Inv({p}) && Ranked(h.held, rank) && refs <= h.owners && h.owners - refs == old(h.owners)
    ensures h.held == old(h.held)[p := old(h.held)[p] - refs] && h.owners == old(h.owners) + refs
    ensures forall x :: x in refs ==> rank(x) < rank(p)
  {
    hide Balanced, Refs, Total, Ranked;
    MoveHeld(h.objs, h.held, h.owners, {p}, p, refs);
    RankedMoved(h.held, rank, p, refs);
    assert {p} + {p} == {p};
    BackAgain(h.owners, refs);
    h.held, h.owners := h.held[p := h.held[p] - refs], h.owners + refs;
  }

  lemma BackAgain(w: multiset<Id>, refs: multiset<Id>)
    ensures refs <= w + refs && w + refs - refs == w
  {
  }

  function InsertPlace(items: seq<Id>, pos: int): (p: nat)
    ensures p <= |items|
  {
    var p := if pos == -2 then |items| else pos;
    if p < 0 then 0 else if p > |items| then |items| else p
  }

  /** List_insert of an object: the list gains a reference, the caller keeps its own. */
  method InsertItem(h: Heap, l: Id, pos: int, item: Id)
    requires h.Inv({}) && h.dying == {} && IsList(h, l) && item in h.objs
    modifies h
    ensures h.Inv({}) && h.dying == {} && h.owners == old(h.owners) && h.objs.Keys == old(h.objs).Keys
    ensures IsList(h, l)
    ensures var items := old(h.objs[l].body.items);
            h.objs[l].body.items == items[..InsertPlace(items, pos)] + [item] + items[InsertPlace(items, pos)..]
    ensures h.held == old(h.held)[l := old(h.held)[l] + multiset{item}] && Framed(old(h.objs), h.objs, l)
  {
    hide Heap.Inv, Balanced, Refs, BodyRefs, MetaRefs, EntryRefs, Total, Shrunk, Ranked, Reachable, Framed;
    Open(h, l);
    var items := h.objs[l].body.items;
    var p := pos;
    if p == DOH_END { p := |items|; }
    if p < 0 { p := 0; }
    if p > |items| { p := |items|; }
    InsertedRefs(items, p, item, h.held[l], MetaRefs(h.objs[l].meta));
    Gain(h, l, item);
    CountedFramed(old(h.objs), h.objs, l, ListBody(items[..p] + [item] + items[p..]));
    SetBody(h, l, ListBody(items[..p] + [item] + items[p..]));
  }

  lemma InsertedRefs(items: seq<Id>, p: nat, item: Id, refs: multiset<Id>, meta: multiset<Id>)
    requires p <= |items| && refs == BodyRefs(ListBody(items)) + meta
    ensures refs + multiset{item} == BodyRefs(ListBody(items[..p] + [item] + items[p..])) + meta
  {
    assert items == items[..p] + items[p..];
  }

  // ----- allocation

  lemma Closure(held: Held, slot: Id)
    requires forall p, x :: p in held && x in held[p] ==> x in held
    ensures var held' := held[slot := multiset{}]; forall p, x :: p in held' && x in held'[p] ==> x in held'
  {
  }

  lemma CountsExtended(objs: map<Id, Cell>, held: Held, all: multiset<Id>, all': multiset<Id>, slot: Id, cell: Cell)
    requires slot !in held && held.Keys <= objs.Keys && cell.refcount == 1
    requires forall x :: x in held && !objs[x].intern ==> objs[x].refcount == all[x] > 0
    requires all' == all + multiset{slot} && all[slot] == 0
    ensures var objs' := objs[slot := cell];
            forall x :: x in held[slot := multiset{}] && !objs'[x].intern ==> objs'[x].refcount == all'[x] > 0
  {
  }

  lemma SwapPlus(w: multiset<Id>, m: multiset<Id>, t: multiset<Id>)
    ensures w + m + t == w + t + m
  {
  }

  /** A fresh object that accounts for nothing yet. */
  lemma AllocatedEmpty(objs: map<Id, Cell>, held: Held, owners: multiset<Id>, slot: Id, cell: Cell)
    requires Balanced(objs, {}, held, owners, {}) && slot !in objs && cell.refcount == 1
    ensures Balanced(objs[slot := cell], {}, held[slot := multiset{}], owners + multiset{slot}, {slot})
  {
    hide Refs, Total;
    var t := Total(held);
    Uncounted(objs, held, owners, slot);
    TotalAdd(held, slot, multiset{});
    assert Total(held[slot := multiset{}]) == t;
    Closure(held, slot);
    SwapPlus(owners, multiset{slot}, t);
    CountsExtended(objs, held, owners + t, owners + multiset{slot} + t, slot, cell);
    Assembled(objs, held, owners, slot, cell);
  }

  lemma Assembled(objs: map<Id, Cell>, held: Held, owners: multiset<Id>, slot: Id, cell: Cell)
    requires Balanced(objs, {}, held, owners, {}) && slot !in objs
    requires var held' := held[slot := multiset{}]; forall p, x :: p in held' && x in held'[p] ==> x in held'
    requires var objs', held' := objs[slot := cell], held[slot := multiset{}];
             forall x :: x in held' && !objs'[x].intern ==> objs'[x].refcount == (owners + multiset{slot} + Total(held'))[x] > 0
    ensures Balanced(objs[slot := cell], {}, held[slot := multiset{}], owners + multiset{slot}, {slot})
  {
    hide Refs, Total;
    var objs', held' := objs[slot := cell], held[slot := multiset{}];
    assert held'.Keys == objs'.Keys;
  }

  /** A change of bookkeeping that leaves every count alone. */
  lemma SameCounts(objs: map<Id, Cell>, held: Held, owners: multiset<Id>, held': Held, owners': multiset<Id>, p: Id)
    requires Balanced(objs, {}, held, owners, {p}) && held'.Keys == held.Keys
    requires owners' + Total(held') == owners + Total(held)
    requires forall x :: x in owners' ==> x in held
    requires forall q, x :: q in held' && x in held'[q] ==> x in held
    requires forall q :: q in held && q != p ==> held'[q] == held[q]
    ensures Balanced(objs, {}, held', owners', {p})
  {
    hide Refs, Total;
  }

  lemma Transfer(w: multiset<Id>, t: multiset<Id>, t': multiset<Id>, refs: multiset<Id>)
    requires t' == t + refs && refs <= w
    ensures w - refs + t' == w + t
  {
  }

  /** Outside references become references of `p`. */
  lemma Absorb(objs: map<Id, Cell>, held: Held, owners: multiset<Id>, p: Id, refs: multiset<Id>)
    requires Balanced(objs, {}, held, owners, {p}) && p in held && refs <= owners
    ensures Balanced(objs, {}, held[p := held[p] + refs], owners - refs, {p})
  {
    hide Refs, Total;
    var held' := held[p := held[p] + refs];
    TotalUpdate(held, p, held[p] + refs);
    Cancel(Total(held'), held[p], Total(held), refs);
    Transfer(owners, Total(held), Total(held'), refs);
    AbsorbKeys(objs, held, owners, p, refs);
    SameCounts(objs, held, owners, held', owners - refs, p);
  }

  lemma AbsorbKeys(objs: map<Id, Cell>, held: Held, owners: multiset<Id>, p: Id, refs: multiset<Id>)
    requires Balanced(objs, {}, held, owners, {p}) && p in held && refs <= owners
    ensures forall x :: x in owners - refs ==> x in held
    ensures var held' := held[p := held[p] + refs]; forall q, x :: q in held' && x in held'[q] ==> x in held
  {
    hide Refs, Total;
    forall x | x in refs ensures x in held { assert x in owners; }
  }

  /** A fresh object whose parts the caller has increfed: those references become its own, and the caller owns it. */
  lemma Allocated(objs: map<Id, Cell>, held: Held, owners: multiset<Id>, slot: Id, cell: Cell)
    requires Balanced(objs, {}, held, owners, {}) && slot !in objs && cell.refcount == 1 && Refs(cell) <= owners
    ensures Balanced(objs[slot := cell], {}, held[slot := Refs(cell)], owners - Refs(cell) + multiset{slot}, {})
  {
    hide Balanced, Refs, Total;
    var refs := Refs(cell);
    AllocatedEmpty(objs, held, owners, slot, cell);
    SwapMinus(owners, multiset{slot}, refs);
    Absorb(objs[slot := cell], held[slot := multiset{}], owners + multiset{slot}, slot, refs);
    assert multiset{} + refs == refs;
    assert held[slot := multiset{}][slot := refs] == held[slot := refs];
    Settled(objs[slot := cell], held[slot := refs], owners - refs + multiset{slot}, slot);
  }

  lemma SwapMinus(w: multiset<Id>, m: multiset<Id>, refs: multiset<Id>)
    requires refs <= w
    ensures w + m - refs == w - refs + m && refs <= w + m
  {
    forall y ensures (w + m - refs)[y] == (w - refs + m)[y] {
      assert refs[y] <= w[y];
    }
  }

  lemma Settled(objs: map<Id, Cell>, held: Held, owners: multiset<Id>, p: Id)
    requires Balanced(objs, {}, held, owners, {p}) && p in held && held[p] == Refs(objs[p])
    ensures Balanced(objs, {}, held, owners, {})
  {
    hide Refs, Total;
  }

  lemma Uncounted(objs: map<Id, Cell>, held: Held, owners: multiset<Id>, slot: Id)
    requires Balanced(objs, {}, held, owners, {}) && slot !in objs
    ensures slot !in held && slot !in owners && slot !in Total(held) && (owners + Total(held))[slot] == 0
  {
    hide Refs, Total;
    if slot in Total(held) { var p := TotalMember(held, slot); }
  }

  /** DohObjMalloc for an object without references of its own. */
  method NewObject(h: Heap, slot: Id, body: Body)
    requires h.Inv({}) && h.dying == {} && slot !in h.objs && BodyRefs(body) == multiset{}
    modifies h
    ensures h.Inv({}) && h.dying == {} && h.owners == old(h.owners) + multiset{slot}
    ensures h.objs == old(h.objs)[slot := Cell(body, None, 1, false)] && h.held == old(h.held)[slot := multiset{}]
  {
    hide Balanced, Total;
    var cell := Cell(body, None, 1, false);
    assert Refs(cell) == multiset{};
    Allocated(h.objs, h.held, h.owners, slot, cell);
    assert h.owners - multiset{} == h.owners;
    h.objs, h.held, h.owners := h.objs[slot := cell], h.held[slot := Refs(cell)], h.owners - Refs(cell) + multiset{slot};
  }

  /** An incref by the program, or on behalf of an object to come. */
  lemma AddOwner(objs: map<Id, Cell>, held: Held, owners: multiset<Id>, open: set<Id>, x: Id)
    requires Balanced(objs, {}, held, owners, open) && x in held
    ensures Balanced(objs[x := objs[x].(refcount := objs[x].refcount + 1)], {}, held, owners + multiset{x}, open)
  {
    hide Refs, Total;
    RefsSame(objs[x], objs[x].(refcount := objs[x].refcount + 1));
  }

  /** CopyList: the items are shared, each counted once more. */
  method CopyList(h: Heap, l: Id, slot: Id)
    requires h.Inv({}) && h.dying == {} && IsList(h, l) && slot !in h.objs
    modifies h
    ensures h.Inv({}) && h.dying == {} && h.owners == old(h.owners) + multiset{slot}
    ensures h.objs.Keys == old(h.objs).Keys + {slot} && h.objs[slot] == Cell(old(h.objs[l].body), None, 1, false)
    ensures h.held == old(h.held)[slot := multiset(old(h.objs[l].body.items))]
    ensures Counted(old(h.objs), h.objs - {slot})
  {
    hide Balanced, Refs, BodyRefs, MetaRefs, Total;
    var items := h.objs[l].body.items;
    KnownCell(h.objs, h.held, h.owners, {}, l);
    ListRefs(items);
    assert forall x :: x in multiset(items) ==> x in h.held[l];
    IncrefAll(h, items);
    Wrap(h, slot, items);
  }

  /** The copy takes over the references increfed for it. */
  method Wrap(h: Heap, slot: Id, items: seq<Id>)
    requires h.Inv({}) && h.dying == {} && slot !in h.objs && multiset(items) <= h.owners
    modifies h
    ensures h.Inv({}) && h.dying == {} && h.owners == old(h.owners) - multiset(items) + multiset{slot}
    ensures h.objs == old(h.objs)[slot := Cell(ListBody(items), None, 1, false)]
    ensures h.held == old(h.held)[slot := multiset(items)]
  {
    hide Balanced, Refs, BodyRefs, MetaRefs, Total;
    var cell := Cell(ListBody(items), None, 1, false);
    ListCellRefs(items);
    Allocated(h.objs, h.held, h.owners, slot, cell);
    h.objs, h.held, h.owners := h.objs[slot := cell], h.held[slot := multiset(items)], h.owners - multiset(items) + multiset{slot};
  }

  lemma ListCellRefs(items: seq<Id>)
    ensures Refs(Cell(ListBody(items), None, 1, false)) == multiset(items)
  {
  }

  /** The increfs of the copying loop; until the copy exists, the references are outside ones. */
  method IncrefAll(h: Heap, items: seq<Id>)
    requires h.Inv({}) && h.dying == {} && forall x :: x in multiset(items) ==> x in h.held
    modifies h
    ensures h.Inv({}) && h.dying == {} && h.held == old(h.held) && h.objs.Keys == old(h.objs).Keys
    ensures h.owners == old(h.owners) + multiset(items) && Counted(old(h.objs), h.objs)
  {
    hide Balanced, Refs, BodyRefs, MetaRefs, Total;
    var i := 0;
    assert items[..0] == [] && multiset(items[..0]) == multiset{};
    while i < |items|
      invariant 0 <= i <= |items| && h.Inv({}) && h.dying == {} && h.held == old(h.held) && h.objs.Keys == old(h.objs).Keys
      invariant h.owners == old(h.owners) + multiset(items[..i]) && Counted(old(h.objs), h.objs)
    {
      assert items[i] in multiset(items);
      KnownItem(h.objs, h.held, h.owners, items[i]);
      AddOwner(h.objs, h.held, h.owners, {}, items[i]);
      assert items[..i + 1] == items[..i] + [items[i]];
      Incref(h, items[i]);
      h.owners := h.owners + multiset{items[i]};
      i := i + 1;
    }
    assert items[..i] == items;
  }

  lemma ListRefs(items: seq<Id>)
    ensures BodyRefs(ListBody(items)) == multiset(items)
  {
  }

  lemma KnownItem(objs: map<Id, Cell>, held: Held, owners: multiset<Id>, x: Id)
    requires Balanced(objs, {}, held, owners, {}) && x in held
    ensures x in objs
  {
  }

  // ----- dropping references

  lemma RankedMoved(held: Held, rank: Id -> nat, p: Id, refs: multiset<Id>)
    requires Ranked(held, rank) && p in held && refs <= held[p]
    ensures Ranked(held[p := held[p] - refs], rank) && forall x :: x in refs ==> rank(x) < rank(p)
  {
  }

  /** `Delete` on a reference that `p` holds, while the cell of `p` still shows it: `p` stays open. */
  method DeleteHeld(h: Heap, p: Id, x: Id, ghost rank: Id -> nat)
    requires h.Inv({}) && h.dying == {} && p in h.objs && p in h.held && x in h.held[p] && Ranked(h.held, rank)
    modifies h
    ensures h.Inv({p}) && h.dying == {} && h.owners == old(h.owners) && h.held.Keys <= old(h.held).Keys
    ensures p in h.objs && p in h.held && h.held[p] == old(h.held[p]) - multiset{x}
    ensures h.objs[p].body == old(h.objs[p].body) && h.objs[p].meta == old(h.objs[p].meta)
    ensures forall y :: y in h.objs <==>
              Reachable(old(h.objs), old(h.held)[p := old(h.held[p]) - multiset{x}], h.owners, y)
    ensures Counted(old(h.objs), h.objs) && Ranked(h.held, rank) && HeldLess(old(h.held), h.held, p, multiset{x})
  {
    hide *;
    Open(h, p);
    OneOf(h.held[p], x);
    MoveOut(h, p, multiset{x}, rank);
    ghost var o1, h1 := h.objs, h.held;
    h.Delete(x, rank, {p});
    AfterDelete(h, o1, h1, p, rank, rank(x) + 1, {p});
    LessHeld(old(h.held), h1, h.held, p, multiset{x});
  }

  lemma OneOf(refs: multiset<Id>, x: Id)
    requires x in refs
    ensures multiset{x} <= refs
  {
  }

  lemma AfterDelete(h: Heap, o1: map<Id, Cell>, h1: Held, p: Id, rank: Id -> nat, top: nat, open: set<Id>)
    requires h.Inv(open) && h.dying == {} && Shrunk(o1, h1, h.objs, h.held, {}, rank, top) && Ranked(h1, rank)
    requires h1.Keys == o1.Keys && p in h1 && top <= rank(p)
    ensures p in h.objs && p in h.held && h.held[p] == h1[p] && h.held.Keys <= h1.Keys
    ensures h.objs[p].body == o1[p].body && h.objs[p].meta == o1[p].meta
    ensures forall y :: y in h.objs <==> Reachable(o1, h1, h.owners, y)
    ensures Counted(o1, h.objs) && Ranked(h.held, rank) && forall y :: y in h.held ==> h.held[y] == h1[y]
  {
    hide Balanced, Refs, Total, Ranked, Reachable;
    ShrunkRanked(o1, h1, h.objs, h.held, {}, rank, top);
    HeldInObjs(h.objs, {}, h.held, h.owners, open);
    KeptByRank(o1, h1, h.objs, h.held, rank, top, p);
    FreesExactly(o1, h1, h.objs, h.held, h.owners, open, rank, top);
  }

  function RemovedPlace(n: nat, at: int): int {
    if at == -2 then n - 1 else if at == -1 then 0 else at
  }

  /** List_remove deletes the item while the list still shows it, then closes the gap. */
  method ListRemove(h: Heap, l: Id, at: int, ghost rank: Id -> nat)
    requires h.Inv({}) && h.dying == {} && IsList(h, l) && Ranked(h.held, rank)
    requires 0 <= RemovedPlace(|h.objs[l].body.items|, at) < |h.objs[l].body.items|
    modifies h
    ensures h.Inv({}) && h.dying == {} && h.owners == old(h.owners) && IsList(h, l)
    ensures var items := old(h.objs[l].body.items);
            var pos := RemovedPlace(|items|, at);
            && h.objs[l].body.items == items[..pos] + items[pos + 1..]
            && l in old(h.held)
            && forall y :: y in h.objs <==>
                 Reachable(old(h.objs), old(h.held)[l := old(h.held[l]) - multiset{items[pos]}], h.owners, y)
    ensures Framed(old(h.objs), h.objs, l) && Ranked(h.held, rank)
    ensures var items := old(h.objs[l].body.items);
            HeldLess(old(h.held), h.held, l, multiset{items[RemovedPlace(|items|, at)]})
  {
    hide Heap.Inv, Balanced, Refs, BodyRefs, MetaRefs, Total, Ranked, Reachable, Framed, HeldLess;
    Open(h, l);
    var items := h.objs[l].body.items;
    var pos := at;
    if pos == DOH_END { pos := |items| - 1; }
    if pos == DOH_BEGIN { pos := 0; }
    assert pos == RemovedPlace(|items|, at);
    hide RemovedPlace;
    RemovedRefs(items, pos, h.held[l], MetaRefs(h.objs[l].meta));
    DeleteHeld(h, l, items[pos], rank);
    CountedFramed(old(h.objs), h.objs, l, ListBody(items[..pos] + items[pos + 1..]));
    SetBody(h, l, ListBody(items[..pos] + items[pos + 1..]));
  }

  lemma RemovedRefs(items: seq<Id>, pos: nat, refs: multiset<Id>, meta: multiset<Id>)
    requires pos < |items| && refs == BodyRefs(ListBody(items)) + meta
    ensures multiset{items[pos]} <= refs
    ensures refs - multiset{items[pos]} == BodyRefs(ListBody(items[..pos] + items[pos + 1..])) + meta
  {
    assert items == items[..pos] + [items[pos]] + items[pos + 1..];
  }

  lemma KeptByRank(objs: map<Id, Cell>, held: Held, objs': map<Id, Cell>, held': Held, rank: Id -> nat, top: nat, l: Id)
    requires Shrunk(objs, held, objs', held', {}, rank, top) && l in held && l in objs && top <= rank(l)
    requires held'.Keys <= objs'.Keys
    ensures l in held' && l in objs' && held'[l] == held[l] && objs'[l].body == objs[l].body && objs'[l].meta == objs[l].meta
  {
  }

  /** List_clear: every item is deleted while the list still shows it, then the list is empty. */
  method ListClear(h: Heap, l: Id, ghost rank: Id -> nat)
    requires h.Inv({}) && h.dying == {} && l in h.objs && h.objs[l].body.ListBody? && Ranked(h.held, rank)
    modifies h
    ensures h.Inv({}) && h.dying == {} && h.owners == old(h.owners)
    ensures l in h.objs && h.objs[l].body == ListBody([]) && l in old(h.held)
    ensures forall y :: y in h.objs <==>
              Reachable(old(h.objs), old(h.held)[l := old(h.held[l]) - multiset(old(h.objs[l].body.items))], h.owners, y)
    ensures Framed(old(h.objs), h.objs, l) && Ranked(h.held, rank)
    ensures HeldLess(old(h.held), h.held, l, multiset(old(h.objs[l].body.items)))
  {
    hide *;
    Open(h, l);
    var items := h.objs[l].body.items;
    ClearedRefs(items, h.held[l], MetaRefs(h.objs[l].meta));
    DropItems(h, l, items, rank);
    CountedFramed(old(h.objs), h.objs, l, ListBody([]));
    SetBody(h, l, ListBody([]));
  }

  /** The deleting loop of List_clear. */
  method DropItems(h: Heap, l: Id, items: seq<Id>, ghost rank: Id -> nat)
    requires h.Inv({l}) && h.dying == {} && l in h.held && h.held.Keys == h.objs.Keys && Ranked(h.held, rank)
    requires multiset(items) <= h.held[l]
    modifies h
    ensures h.Inv({l}) && h.dying == {} && h.owners == old(h.owners)
    ensures l in h.objs && l in h.held && h.held[l] == old(h.held[l]) - multiset(items)
    ensures h.objs[l].body == old(h.objs[l].body) && h.objs[l].meta == old(h.objs[l].meta)
    ensures forall y :: y in h.objs <==>
              Reachable(old(h.objs), old(h.held)[l := old(h.held[l]) - multiset(items)], h.owners, y)
    ensures Counted(old(h.objs), h.objs) && Ranked(h.held, rank) && HeldLess(old(h.held), h.held, l, multiset(items))
  {
    hide *;
    MoveOut(h, l, multiset(items), rank);
    ghost var o1, h1 := h.objs, h.held;
    ShrunkSelf(o1, h1, {}, rank, rank(l));
    h.DelList(items, rank(l), rank, {l}, o1, h1);
    AfterDelete(h, o1, h1, l, rank, rank(l), {l});
    LessHeld(old(h.held), h1, h.held, l, multiset(items));
  }

  lemma LessHeld(held: Held, held': Held, held'': Held, p: Id, refs: multiset<Id>)
    requires p in held && held' == held[p := held[p] - refs] && held''.Keys <= held'.Keys
    requires forall y :: y in held'' ==> held''[y] == held'[y]
    ensures HeldLess(held, held'', p, refs)
  {
  }

  lemma ClearedRefs(items: seq<Id>, refs: multiset<Id>, meta: multiset<Id>)
    requires refs == BodyRefs(ListBody(items)) + meta
    ensures multiset(items) <= refs && refs - multiset(items) == BodyRefs(ListBody([])) + meta
  {
  }

  // ----- what is given: an object, a C string that becomes one, or nothing

  /** A C string is made a string object in a slot of its own. */
  datatype Given = Nothing | CString(slot: Id) | Object(x: Id)

  predicate Usable(h: Heap, g: Given)
    reads h
  {
    match g case Nothing => true case CString(slot) => slot !in h.objs case Object(x) => x in h.objs
  }

  function IdOf(g: Given): Id
    requires !g.Nothing?
  {
    if g.CString? then g.slot else g.x
  }

  lemma TwoReferences(objs: map<Id, Cell>, held: Held, owners: multiset<Id>, p: Id, x: Id)
    requires Balanced(objs, {}, held, owners, {}) && x in owners && p in held && x in held[p]
    ensures x in objs && (!objs[x].intern ==> objs[x].refcount > 1)
  {
    hide Refs, Total;
    TotalContains(held, p, x);
  }

  /** Decref of a reference that is not the last one. */
  method Decref(h: Heap, x: Id)
    requires h.Inv({}) && h.dying == {} && x in h.owners && x in h.objs && !h.objs[x].intern && h.objs[x].refcount > 1
    modifies h`objs, h`owners
    ensures h.Inv({}) && h.owners == old(h.owners) - multiset{x}
    ensures h.objs == old(h.objs)[x := old(h.objs[x]).(refcount := old(h.objs[x]).refcount - 1)]
  {
    hide Balanced, Refs, Total;
    DecrementKeeps(h.objs, {}, h.held, h.owners, {}, x);
    h.objs, h.owners := h.objs[x := h.objs[x].(refcount := h.objs[x].refcount - 1)], h.owners - multiset{x};
  }

  /** A reference to an object that `p` keeps alive is given up. */
  method GiveBack(h: Heap, p: Id, x: Id)
    requires h.Inv({}) && h.dying == {} && x in h.owners && x in h.objs && !h.objs[x].intern && p in h.held && x in h.held[p]
    modifies h`objs, h`owners
    ensures h.Inv({}) && h.owners == old(h.owners) - multiset{x} && Counted(old(h.objs), h.objs) && h.objs.Keys == old(h.objs).Keys
  {
    hide Balanced, Refs, Total;
    TwoReferences(h.objs, h.held, h.owners, p, x);
    Decref(h, x);
  }

  /** List_insert of a C string, which becomes a string object that only the list refers to.  The source gives up its
      own reference to the string before the list counts it; here it does so last, and in between there is nothing that
      could tell. */
  method InsertString(h: Heap, l: Id, pos: int, slot: Id)
    requires h.Inv({}) && h.dying == {} && IsList(h, l) && slot !in h.objs
    modifies h
    ensures h.Inv({}) && h.dying == {} && h.owners == old(h.owners)
    ensures IsList(h, l) && h.objs.Keys == old(h.objs).Keys + {slot} && l in old(h.held)
    ensures var items := old(h.objs[l].body.items);
            h.objs[l].body.items == items[..InsertPlace(items, pos)] + [slot] + items[InsertPlace(items, pos)..]
    ensures Framed(old(h.objs), h.objs - {slot}, l) && h.objs[slot].body == Plain && h.objs[slot].meta == None
    ensures h.held == old(h.held)[slot := multiset{}][l := old(h.held[l]) + multiset{slot}]
  {
    hide Heap.Inv, Balanced, Refs, BodyRefs, MetaRefs, EntryRefs, Total, Shrunk, Ranked, Reachable, Framed, Counted, InsertPlace;
    ghost var o0, w := h.objs, h.owners;
    HeldKnown(h, l);
    PlainHasNone();
    NewObject(h, slot, Plain);
    ghost var o1 := h.objs;
    InsertItem(h, l, pos, slot);
    ghost var o2 := h.objs;
    NewFramed(o0, o1, o2, l, slot);
    GiveBack(h, l, slot);
    CountedAfter(o0, o2, h.objs, l, slot);
    BackAgain(w, multiset{slot});
  }

  /** List_insert: nothing is refused, an object is shared, a C string becomes one. */
  method ListInsert(h: Heap, l: Id, pos: int, item: Given) returns (r: int)
    requires h.Inv({}) && h.dying == {} && IsList(h, l) && Usable(h, item)
    modifies h
    ensures h.Inv({}) && h.dying == {} && h.owners == old(h.owners)
    ensures r == if item.Nothing? then -1 else 0
    ensures item.Nothing? ==> h.objs == old(h.objs) && h.held == old(h.held)
    ensures !item.Nothing? ==>
              && IsList(h, l) && h.objs.Keys == old(h.objs).Keys + {IdOf(item)} && l in old(h.held)
              && var items := old(h.objs[l].body.items);
                 h.objs[l].body.items == items[..InsertPlace(items, pos)] + [IdOf(item)] + items[InsertPlace(items, pos)..]
    ensures item.Object? ==>
              Framed(old(h.objs), h.objs, l) && h.held == old(h.held)[l := old(h.held[l]) + multiset{item.x}]
    ensures item.CString? ==>
              && Framed(old(h.objs), h.objs - {item.slot}, l)
              && h.objs[item.slot].body == Plain && h.objs[item.slot].meta == None
              && h.held == old(h.held)[item.slot := multiset{}][l := old(h.held[l]) + multiset{item.slot}]
  {
    hide Heap.Inv, Balanced, Refs, BodyRefs, MetaRefs, EntryRefs, Total, Shrunk, Ranked, Reachable, Framed, Counted, InsertPlace;
    match item {
      case Nothing => return -1;
      case Object(x) =>
        HeldKnown(h, l);
        InsertItem(h, l, pos, x);
        return 0;
      case CString(slot) =>
        InsertString(h, l, pos, slot);
        return 0;
    }
  }

  lemma PlainHasNone()
    ensures BodyRefs(Plain) == multiset{}
  {
  }

  lemma HeldKnown(h: Heap, p: Id)
    requires h.Inv({}) && h.dying == {} && p in h.objs
    ensures p in h.held && h.held.Keys == h.objs.Keys
  {
    hide Refs, Total;
  }

  /** An object made by the way is not part of the frame. */
  lemma NewFramed(o0: map<Id, Cell>, o1: map<Id, Cell>, o2: map<Id, Cell>, p: Id, slot: Id)
    requires slot !in o0 && p in o0 && slot in o1 && o1 == o0[slot := o1[slot]] && Framed(o1, o2, p) && p in o2 && slot in o2
    ensures Framed(o0, o2 - {slot}, p) && p != slot
    ensures o2[slot] == o1[slot].(refcount := o2[slot].refcount)
  {
  }

  lemma CountedAfter(o0: map<Id, Cell>, o2: map<Id, Cell>, o3: map<Id, Cell>, p: Id, slot: Id)
    requires Framed(o0, o2 - {slot}, p) && Counted(o2, o3) && o3.Keys == o2.Keys && p in o2 && slot in o2
    ensures Framed(o0, o3 - {slot}, p) && o3[p].body == o2[p].body
    ensures o3[slot] == o2[slot].(refcount := o3[slot].refcount)
  {
  }

  // ----- meta data

  lemma MetaCell(c: Cell, slot: Id)
    ensures Refs(c.(meta := Some(slot))) == BodyRefs(c.body) + multiset{slot}
  {
    hide BodyRefs;
  }

  /** The first DohSetmeta of an object: a new table becomes its meta object; the one reference there is to it passes
      from the program to the object. */
  method NewMeta(h: Heap, x: Id, slot: Id)
    requires h.Inv({}) && h.dying == {} && x in h.objs && h.objs[x].meta == None && slot !in h.objs
    modifies h
    ensures h.Inv({}) && h.dying == {} && h.owners == old(h.owners)
    ensures h.objs == old(h.objs)[slot := Cell(HashBody([]), None, 1, false)][x := old(h.objs[x]).(meta := Some(slot))]
    ensures x in old(h.held) && h.held == old(h.held)[slot := multiset{}][x := old(h.held[x]) + multiset{slot}]
  {
    hide Balanced, Refs, BodyRefs, EntryRefs, Total;
    ghost var w := h.owners;
    NoEntries();
    NewObject(h, slot, HashBody([]));
    Open(h, x);
    Absorb(h.objs, h.held, h.owners, x, multiset{slot});
    BackAgain(w, multiset{slot});
    h.held, h.owners := h.held[x := h.held[x] + multiset{slot}], h.owners - multiset{slot};
    MetaCell(h.objs[x], slot);
    StoreCell(h.objs, h.held, h.owners, x, h.objs[x].(meta := Some(slot)));
    h.objs := h.objs[x := h.objs[x].(meta := Some(slot))];
  }

  lemma NoEntries()
    ensures BodyRefs(HashBody([])) == multiset{}
  {
  }
}
