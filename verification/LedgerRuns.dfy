/** Whole runs of operations on objects (Source/DOH): whatever sequence a program performs, counts stay right, nothing is
    leaked and nothing dangles -- until a table is given a borrowed object that its own deletion frees.
 */
module LedgerRuns {
  import opened Wrappers
  import opened Ledger
  import opened Reachability
  import opened LedgerOps
  import opened LedgerTables
  import opened LedgerSetattr

  datatype Kind = AString | AList | ATable

  /** What a program can do.  `Rerank` changes the order that shows that references make no cycle. */
  datatype Op =
    | New(slot: Id, kind: Kind)
    | Intern(slot: Id)
    | Share(x: Id)
    | Drop(x: Id)
    | Insert(l: Id, pos: int, item: Given)
    | Remove(l: Id, pos: int)
    | ClearList(l: Id)
    | CopyAList(l: Id, slot: Id)
    | Set(t: Id, at: Option<nat>, key: Id, value: Given)
    | ClearTable(t: Id)
    | CopyATable(t: Id, slot: Id)
    | SetMeta(x: Id, slot: Id)
    | Rerank(rank: Id -> nat)

  function BodyOf(kind: Kind): Body {
    match kind case AString => Plain case AList => ListBody([]) case ATable => HashBody([])
  }

  predicate Below(g: Given, p: Id, rank: Id -> nat) {
    g.Nothing? || rank(IdOf(g)) < rank(p)
  }

  predicate AllBelow(refs: multiset<Id>, p: Id, rank: Id -> nat) {
    forall x | x in refs :: rank(x) < rank(p)
  }

  /** What the source asks of its caller -- live arguments of the right kind, places that exist, references that the
      program owns -- and that no cycle arises. */
  predicate Allowed(objs: map<Id, Cell>, mine: multiset<Id>, rank: Id -> nat, op: Op) {
    match op
    case New(slot, _) => slot !in objs
    case Intern(slot) => slot !in objs
    case Share(x) => x in objs
    case Drop(x) => x in mine
    case Insert(l, _, item) => l in objs && objs[l].body.ListBody? && Live(objs, item) && Below(item, l, rank)
    case Remove(l, pos) =>
      l in objs && objs[l].body.ListBody? && 0 <= RemovedPlace(|objs[l].body.items|, pos) < |objs[l].body.items|
    case ClearList(l) => l in objs && objs[l].body.ListBody?
    case CopyAList(l, slot) =>
      l in objs && objs[l].body.ListBody? && slot !in objs && AllBelow(multiset(objs[l].body.items), slot, rank)
    case Set(t, at, key, value) =>
      && t in objs && objs[t].body.HashBody? && key in objs && Live(objs, value)
      && (at.Some? ==> at.value < |objs[t].body.entries|)
      && Below(value, t, rank) && rank(key) < rank(t)
    case ClearTable(t) => t in objs && objs[t].body.HashBody?
    case CopyATable(t, slot) =>
      t in objs && objs[t].body.HashBody? && slot !in objs && AllBelow(EntryRefs(objs[t].body.entries), slot, rank)
    case SetMeta(x, slot) => x in objs && objs[x].meta == None && slot !in objs && rank(slot) < rank(x)
    case Rerank(r) => forall p | p in objs :: AllBelow(Refs(objs[p]), p, r)
  }

  predicate Live(objs: map<Id, Cell>, g: Given) {
    match g case Nothing => true case CString(slot) => slot !in objs case Object(x) => x in objs
  }

  /** The ledger balances, the program owns `mine`, and references go down the ranking. */
  ghost predicate Good(h: Heap, mine: multiset<Id>, rank: Id -> nat)
    reads h
  {
    h.Inv({}) && h.dying == {} && h.owners == mine && Ranked(h.held, rank)
  }

  // ----- keeping the ranking

  lemma RankedAdd(held: Held, held': Held, p: Id, refs: multiset<Id>, rank: Id -> nat)
    requires Ranked(held, rank) && held' == held[p := refs] && AllBelow(refs, p, rank)
    ensures Ranked(held', rank)
  {
  }

  lemma RankedInsert(held: Held, held': Held, l: Id, item: Given, rank: Id -> nat)
    requires Ranked(held, rank) && Below(item, l, rank) && l in held
    requires item.Nothing? ==> held' == held
    requires item.Object? ==> held' == held[l := held[l] + multiset{item.x}]
    requires item.CString? ==> held' == held[item.slot := multiset{}][l := held[l] + multiset{item.slot}]
    ensures Ranked(held', rank)
  {
  }

  lemma RankedMeta(held: Held, held': Held, x: Id, slot: Id, rank: Id -> nat)
    requires Ranked(held, rank) && x in held && rank(slot) < rank(x)
    requires held' == held[slot := multiset{}][x := held[x] + multiset{slot}]
    ensures Ranked(held', rank)
  {
  }

  lemma NewRanking(h: Heap, rank: Id -> nat)
    requires h.Inv({}) && h.dying == {} && forall p | p in h.objs :: AllBelow(Refs(h.objs[p]), p, rank)
    ensures Ranked(h.held, rank)
  {
    hide Refs, Total;
  }

  // ----- the steps

  /** NewString of a key, which is interned: it is never counted, and never freed. */
  method NewInterned(h: Heap, slot: Id)
    requires h.Inv({}) && h.dying == {} && slot !in h.objs
    modifies h
    ensures h.Inv({}) && h.dying == {} && h.owners == old(h.owners) && h.held == old(h.held)[slot := multiset{}]
    ensures h.objs == old(h.objs)[slot := Cell(Plain, None, 1, true)]
  {
    hide Balanced, Refs, Total;
    InternedKeeps(h.objs, h.held, h.owners, slot);
    h.objs, h.held := h.objs[slot := Cell(Plain, None, 1, true)], h.held[slot := multiset{}];
  }

  lemma InternedKeeps(objs: map<Id, Cell>, held: Held, owners: multiset<Id>, slot: Id)
    requires Balanced(objs, {}, held, owners, {}) && slot !in objs
    ensures Balanced(objs[slot := Cell(Plain, None, 1, true)], {}, held[slot := multiset{}], owners, {})
  {
    hide Total, Refs;
    InternedCell();
    Uncounted(objs, held, owners, slot);
    TotalAdd(held, slot, multiset{});
    var objs', held' := objs[slot := Cell(Plain, None, 1, true)], held[slot := multiset{}];
    assert Total(held') == Total(held);
    Closure(held, slot);
    assert held'.Keys == objs'.Keys;
    forall x | x in held' && !objs'[x].intern ensures objs'[x].refcount == (owners + Total(held'))[x] > 0 {
      assert x in held && objs'[x] == objs[x];
    }
  }

  lemma InternedCell()
    ensures Refs(Cell(Plain, None, 1, true)) == multiset{}
  {
  }

  /** DohIncref by the program. */
  method Keep(h: Heap, x: Id)
    requires h.Inv({}) && h.dying == {} && x in h.objs
    modifies h
    ensures h.Inv({}) && h.dying == {} && h.owners == old(h.owners) + multiset{x} && h.held == old(h.held)
  {
    hide Balanced, Refs, Total;
    HeldKnown(h, x);
    AddOwner(h.objs, h.held, h.owners, {}, x);
    Incref(h, x);
    h.owners := h.owners + multiset{x};
  }

  /** One operation; one that is not allowed is passed over.  `lost` tells that a table has been given a borrowed object
      that the deletion before it has freed. */
  method Step(h: Heap, op: Op, mine: multiset<Id>, rank: Id -> nat) returns (mine': multiset<Id>, rank': Id -> nat, lost: bool)
    requires Good(h, mine, rank)
    modifies h
    ensures !lost ==> Good(h, mine', rank')
    ensures lost ==>
              && op.Set? && op.at.Some? && op.value.Object? && op.value.x !in mine && op.value.x in old(h.objs)
              && Dangling(h, op.t, op.value.x)
  {
    hide Heap.Inv, Balanced, Refs, BodyRefs, MetaRefs, EntryRefs, Total, Shrunk, Ranked, Reachable, Counted, Framed, HeldLess,
         AllBelow, Below;
    mine', rank', lost := mine, rank, false;
    if !Allowed(h.objs, mine, rank, op) { return; }
    match op {
      case New(slot, kind) => mine' := StepNew(h, slot, kind, mine, rank);
      case Intern(slot) => RankedNew(h.held, rank, slot); NewInterned(h, slot);
      case Share(x) => Keep(h, x); mine' := mine + multiset{x};
      case Drop(x) => DohDelete(h, x, rank); mine' := mine - multiset{x};
      case Insert(l, pos, item) => StepInsert(h, l, pos, item, mine, rank);
      case Remove(l, pos) => ListRemove(h, l, pos, rank);
      case ClearList(l) => ListClear(h, l, rank);
      case CopyAList(l, slot) => mine' := StepCopyList(h, l, slot, mine, rank);
      case Set(t, at, key, value) => lost := StepSet(h, t, at, key, value, mine, rank);
      case ClearTable(t) => HashClear(h, t, rank);
      case CopyATable(t, slot) => mine' := StepCopyHash(h, t, slot, mine, rank);
      case SetMeta(x, slot) => StepMeta(h, x, slot, mine, rank);
      case Rerank(r) => NewRanking(h, r); rank' := r;
    }
  }

  /** Table `t` names `x`, which is gone; apart from that table the ledger still balances. */
  ghost predicate Dangling(h: Heap, t: Id, x: Id)
    reads h
  {
    h.Inv({t}) && h.dying == {} && IsHash(h, t) && x !in h.objs && exists e :: e in h.objs[t].body.entries && e.value == x
  }

  method StepNew(h: Heap, slot: Id, kind: Kind, mine: multiset<Id>, ghost rank: Id -> nat) returns (mine': multiset<Id>)
    requires Good(h, mine, rank) && slot !in h.objs
    modifies h
    ensures Good(h, mine', rank)
  {
    hide Heap.Inv, Balanced, Total, Ranked;
    NoneYet(kind);
    RankedNew(h.held, rank, slot);
    NewObject(h, slot, BodyOf(kind));
    mine' := mine + multiset{slot};
  }

  lemma NoneYet(kind: Kind)
    ensures BodyRefs(BodyOf(kind)) == multiset{}
  {
  }

  method StepInsert(h: Heap, l: Id, pos: int, item: Given, ghost mine: multiset<Id>, ghost rank: Id -> nat)
    requires Good(h, mine, rank) && IsList(h, l) && Live(h.objs, item) && Below(item, l, rank)
    modifies h
    ensures Good(h, mine, rank)
  {
    hide Heap.Inv, Balanced, Refs, BodyRefs, Total, Ranked, Below, Framed, InsertPlace;
    HeldKnown(h, l);
    ghost var h0 := h.held;
    var _ := ListInsert(h, l, pos, item);
    RankedInsert(h0, h.held, l, item, rank);
  }

  method StepCopyList(h: Heap, l: Id, slot: Id, mine: multiset<Id>, ghost rank: Id -> nat) returns (mine': multiset<Id>)
    requires Good(h, mine, rank) && IsList(h, l) && slot !in h.objs && AllBelow(multiset(h.objs[l].body.items), slot, rank)
    modifies h
    ensures Good(h, mine', rank)
  {
    hide Heap.Inv, Balanced, Refs, BodyRefs, Total, Ranked, AllBelow, Counted;
    ghost var h0, refs := h.held, multiset(h.objs[l].body.items);
    CopyList(h, l, slot);
    RankedAdd(h0, h.held, slot, refs, rank);
    mine' := mine + multiset{slot};
  }

  method StepCopyHash(h: Heap, t: Id, slot: Id, mine: multiset<Id>, ghost rank: Id -> nat) returns (mine': multiset<Id>)
    requires Good(h, mine, rank) && IsHash(h, t) && slot !in h.objs && AllBelow(EntryRefs(h.objs[t].body.entries), slot, rank)
    modifies h
    ensures Good(h, mine', rank)
  {
    hide Heap.Inv, Balanced, Refs, BodyRefs, EntryRefs, Total, Ranked, AllBelow, Counted;
    ghost var h0, refs := h.held, EntryRefs(h.objs[t].body.entries);
    CopyHash(h, t, slot);
    RankedAdd(h0, h.held, slot, refs, rank);
    mine' := mine + multiset{slot};
  }

  method StepMeta(h: Heap, x: Id, slot: Id, ghost mine: multiset<Id>, ghost rank: Id -> nat)
    requires Good(h, mine, rank) && x in h.objs && h.objs[x].meta == None && slot !in h.objs && rank(slot) < rank(x)
    modifies h
    ensures Good(h, mine, rank)
  {
    hide Heap.Inv, Balanced, Refs, Total, Ranked;
    ghost var h0 := h.held;
    NewMeta(h, x, slot);
    RankedMeta(h0, h.held, x, slot, rank);
  }

  method StepSet(h: Heap, t: Id, at: Option<nat>, key: Id, value: Given, ghost mine: multiset<Id>, ghost rank: Id -> nat)
    returns (lost: bool)
    requires Good(h, mine, rank) && IsHash(h, t) && key in h.objs && Live(h.objs, value)
    requires at.Some? ==> at.value < |h.objs[t].body.entries|
    requires Below(value, t, rank) && rank(key) < rank(t)
    modifies h
    ensures !lost ==> Good(h, mine, rank)
    ensures lost ==>
              at.Some? && value.Object? && value.x !in mine && value.x in old(h.objs) && Dangling(h, t, value.x)
  {
    hide Heap.Inv, Balanced, Refs, BodyRefs, EntryRefs, Total, Ranked, Reachable, Framed;
    ghost var o0, h0 := h.objs, h.held;
    HeldKnown(h, t);
    var _, safe := Setattr(h, t, at, key, value, rank);
    lost := !safe;
    if lost {
      ghost var gone := o0[t].body.entries[at.value].value;
      if value.x in mine { OwnedIsReachable(o0, h0[t := h0[t] - multiset{gone}], mine, value.x); }
      assert h.objs[t].body.entries[at.value] in h.objs[t].body.entries;
    }
  }

  // ----- runs

  /** Every reference of a live object is to a live object, and every live object is reached from what the program owns
      or has interned. */
  ghost predicate NothingLost(h: Heap, mine: multiset<Id>)
    reads h
  {
    && (forall p, x :: p in h.objs && x in Refs(h.objs[p]) ==> x in h.objs)
    && (forall y :: y in h.objs ==> Reachable(h.objs, h.held, mine, y))
    && h.held.Keys == h.objs.Keys && (forall p :: p in h.objs ==> h.held[p] == Refs(h.objs[p]))
  }

  lemma GoodMeans(h: Heap, mine: multiset<Id>, rank: Id -> nat)
    requires Good(h, mine, rank)
    ensures NothingLost(h, mine)
    ensures forall x :: x in h.objs && !h.objs[x].intern ==> h.objs[x].refcount == (mine + Total(h.held))[x] > 0
  {
    hide Refs, Total, Reachable, Ranked;
    forall y | y in h.objs ensures Reachable(h.objs, h.held, mine, y) {
      LiveIsReachable(h.objs, {}, h.held, mine, {}, rank, y);
    }
  }

  /** A Setattr over an existing entry, of an object. */
  ghost predicate Borrows(op: Op) {
    op.Set? && op.at.Some? && op.value.Object?
  }

  /** From the empty heap, any sequence of operations: at the end -- and so at every moment, as each beginning of the
      sequence is a sequence too -- counts are right, nothing is leaked and nothing dangles, unless a Setattr over an
      existing entry has lost a borrowed object; without such operations that does not happen. */
  method Run(ops: seq<Op>) returns (h: Heap, mine: multiset<Id>, lost: bool)
    ensures fresh(h)
    ensures !lost ==> NothingLost(h, mine)
    ensures !lost ==> forall x :: x in h.objs && !h.objs[x].intern ==> h.objs[x].refcount == (mine + Total(h.held))[x] > 0
    ensures lost ==> exists i :: 0 <= i < |ops| && Borrows(ops[i]) && Dangling(h, ops[i].t, ops[i].value.x)
  {
    hide Good, Dangling, NothingLost, Total, Allowed;
    h := new Heap();
    mine, lost := multiset{}, false;
    var rank: Id -> nat := x => 0;
    EmptyIsGood(h, rank);
    for i := 0 to |ops|
      invariant fresh(h) && Good(h, mine, rank) && !lost
    {
      mine, rank, lost := Step(h, ops[i], mine, rank);
      if lost {
        assert Borrows(ops[i]) && Dangling(h, ops[i].t, ops[i].value.x);
        return;
      }
    }
    GoodMeans(h, mine, rank);
  }

  lemma EmptyIsGood(h: Heap, rank: Id -> nat)
    requires h.Inv({}) && h.held == map[] && h.owners == multiset{} && h.dying == {}
    ensures Good(h, multiset{}, rank)
  {
  }
}
