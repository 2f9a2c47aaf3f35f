/** Hash_setattr in full, as far as references are concerned (Source/DOH/hash.c): what is given can be an object, a C string
    that becomes one, or nothing.
 */
module LedgerSetattr {
  import opened Wrappers
  import opened Ledger
  import opened Reachability
  import opened LedgerOps
  import opened LedgerTables

  // ----- setting an attribute

  /** The second ledger has one object more, which refers to nothing and is referred to by nothing. */
  ghost predicate OneMore(objs: map<Id, Cell>, held: Held, owners: multiset<Id>, objs': map<Id, Cell>, held': Held,
                          owners': multiset<Id>, slot: Id) {
    && (forall x :: x != slot ==> (IsRoot(objs', owners', x) <==> IsRoot(objs, owners, x)))
    && held'.Keys == held.Keys + {slot}
    && (forall p :: p in held' ==> slot !in held'[p])
    && (forall p :: p in held && p != slot ==> held'[p] == held[p])
    && slot !in held && held'[slot] == multiset{}
  }

  /** It makes no difference to what is reached. */
  lemma {:induction false} ReachApart(objs: map<Id, Cell>, held: Held, owners: multiset<Id>, objs': map<Id, Cell>, held': Held,
                                      owners': multiset<Id>, slot: Id, y: Id, n: nat)
    requires y != slot && OneMore(objs, held, owners, objs', held', owners', slot)
    ensures ReachIn(objs', held', owners', y, n) <==> ReachIn(objs, held, owners, y, n)
    decreases n
  {
    hide IsRoot;
    if n > 0 {
      forall p | p in held && y in held[p]
        ensures held'[p] == held[p] && (ReachIn(objs', held', owners', p, n - 1) <==> ReachIn(objs, held, owners, p, n - 1))
      {
        ReachApart(objs, held, owners, objs', held', owners', slot, p, n - 1);
      }
    }
  }

  ghost predicate SameReach(objs: map<Id, Cell>, held: Held, owners: multiset<Id>, objs': map<Id, Cell>, held': Held,
                            owners': multiset<Id>, slot: Id) {
    forall y :: y != slot ==> (Reachable(objs', held', owners', y) <==> Reachable(objs, held, owners, y))
  }

  lemma ReachableApart(objs: map<Id, Cell>, held: Held, owners: multiset<Id>, objs': map<Id, Cell>, held': Held,
                       owners': multiset<Id>, slot: Id)
    requires OneMore(objs, held, owners, objs', held', owners', slot)
    ensures SameReach(objs, held, owners, objs', held', owners', slot)
  {
    hide ReachIn, OneMore;
    forall y | y != slot ensures Reachable(objs', held', owners', y) <==> Reachable(objs, held, owners, y) {
      forall n: nat ensures ReachIn(objs', held', owners', y, n) <==> ReachIn(objs, held, owners, y, n) {
        ReachApart(objs, held, owners, objs', held', owners', slot, y, n);
      }
    }
  }

  lemma FreshIsMore(objs: map<Id, Cell>, held: Held, owners: multiset<Id>, slot: Id, cell: Cell, t: Id, refs: multiset<Id>)
    requires Balanced(objs, {}, held, owners, {}) && slot !in objs && !cell.intern && t in held && refs <= held[t]
    ensures OneMore(objs, held[t := refs], owners, objs[slot := cell], held[slot := multiset{}][t := refs],
                    owners + multiset{slot}, slot)
  {
    hide Refs, Total;
    Uncounted(objs, held, owners, slot);
    forall p | p in held ensures slot !in held[p] {
      if slot in held[p] { TotalContains(held, p, slot); }
    }
  }

  /** What is held once a new string has taken the place of `gone` in `t`. */
  ghost predicate StringHeld(held: Held, held': Held, t: Id, slot: Id, gone: Id) {
    && t in held && t in held' && held'[t] == held[t] - multiset{gone} + multiset{slot}
    && forall y :: y in held' && y != t ==> if y == slot then held'[y] == multiset{} else y in held && held'[y] == held[y]
  }

  lemma RankedNew(held: Held, rank: Id -> nat, slot: Id)
    requires Ranked(held, rank)
    ensures Ranked(held[slot := multiset{}], rank)
  {
  }

  /** A new string object, to be set in table `t` for `gone`: what the table loses by that is what it would have lost
      before. */
  method NewString(h: Heap, t: Id, slot: Id, ghost gone: Id, ghost rank: Id -> nat)
    requires h.Inv({}) && h.dying == {} && IsHash(h, t) && slot !in h.objs && Ranked(h.held, rank)
    requires t in h.held && gone in h.held[t]
    modifies h
    ensures h.Inv({}) && h.dying == {} && h.owners == old(h.owners) + multiset{slot} && Ranked(h.held, rank)
    ensures h.objs == old(h.objs)[slot := Cell(Plain, None, 1, false)] && h.held == old(h.held)[slot := multiset{}]
    ensures t != slot && IsHash(h, t) && h.objs[t] == old(h.objs[t])
    ensures SameReach(old(h.objs), old(h.held)[t := old(h.held[t]) - multiset{gone}], old(h.owners),
                      h.objs, h.held[t := h.held[t] - multiset{gone}], h.owners, slot)
  {
    hide Heap.Inv, Balanced, Refs, BodyRefs, MetaRefs, EntryRefs, Total, Ranked, OneMore, Reachable;
    ghost var o0, h0, w0 := h.objs, h.held, h.owners;
    PlainHasNone();
    RankedNew(h.held, rank, slot);
    MoreWithout(h, t, slot, gone);
    NewObject(h, slot, Plain);
    ReachableApart(o0, h0[t := h0[t] - multiset{gone}], w0, h.objs, h.held[t := h.held[t] - multiset{gone}], h.owners, slot);
  }

  lemma MoreWithout(h: Heap, t: Id, slot: Id, gone: Id)
    requires h.Inv({}) && h.dying == {} && t in h.held && t in h.objs && slot !in h.objs && gone in h.held[t]
    ensures OneMore(h.objs, h.held[t := h.held[t] - multiset{gone}], h.owners, h.objs[slot := Cell(Plain, None, 1, false)],
                    h.held[slot := multiset{}][t := h.held[slot := multiset{}][t] - multiset{gone}],
                    h.owners + multiset{slot}, slot)
  {
    hide Balanced, OneMore;
    FreshIsMore(h.objs, h.held, h.owners, slot, Cell(Plain, None, 1, false), t, h.held[t] - multiset{gone});
  }

  lemma EntryHeld(h: Heap, t: Id, j: nat)
    requires h.Inv({}) && h.dying == {} && IsHash(h, t) && j < |h.objs[t].body.entries|
    ensures t in h.held && h.objs[t].body.entries[j].value in h.held[t] && h.objs[t].body.entries[j].value in h.objs
  {
    hide Balanced, EntryRefs, MetaRefs, Total;
    KnownCell(h.objs, h.held, h.owners, {}, t);
    EntryRefsAt(h.objs[t].body.entries, j);
    EntriesLive(h, t);
  }

  /** Hash_setattr of a C string on an entry that is there: always safe, and what is freed is what the old object alone
      kept alive. */
  method SetString(h: Heap, t: Id, j: nat, slot: Id, ghost rank: Id -> nat)
    requires h.Inv({}) && h.dying == {} && IsHash(h, t) && j < |h.objs[t].body.entries| && Ranked(h.held, rank)
    requires slot !in h.objs
    modifies h
    ensures h.Inv({}) && h.dying == {} && h.owners == old(h.owners) && IsHash(h, t)
    ensures h.objs[t].body.entries == old(h.objs[t].body.entries)[j := Entry(old(h.objs[t].body.entries)[j].key, slot)]
    ensures Framed(old(h.objs), h.objs - {slot}, t) && slot in h.objs && h.objs[slot].body == Plain && h.objs[slot].meta == None
    ensures StringHeld(old(h.held), h.held, t, slot, old(h.objs[t].body.entries)[j].value) && t in old(h.held)
    ensures var gone := old(h.objs[t].body.entries)[j].value;
            forall y :: y != slot ==>
              (y in h.objs <==> Reachable(old(h.objs), old(h.held)[t := old(h.held[t]) - multiset{gone}], h.owners, y))
  {
    hide Heap.Inv, Balanced, Refs, BodyRefs, MetaRefs, EntryRefs, Total, Shrunk, Ranked, Reachable, Counted, Framed, HeldLess,
         OneMore, StringHeld;
    ghost var o0, h0, w0 := h.objs, h.held, h.owners;
    ghost var gone := h.objs[t].body.entries[j].value;
    EntryHeld(h, t, j);
    NewString(h, t, slot, gone, rank);
    ghost var o1, h1 := h.objs, h.held;
    PutString(h, t, j, slot, rank);
    ghost var o2 := h.objs;
    NewFramed(o0, o1, o2, t, slot);
    HeldOfString(h0, h1, h.held, t, slot, gone);
    GiveBack(h, t, slot);
    CountedAfter(o0, o2, h.objs, t, slot);
    BackAgain(w0, multiset{slot});
  }

  /** Hash_setattr on an entry that is there, of an object that the caller owns and the table does not hold yet. */
  method PutString(h: Heap, t: Id, j: nat, value: Id, ghost rank: Id -> nat)
    requires h.Inv({}) && h.dying == {} && IsHash(h, t) && j < |h.objs[t].body.entries| && Ranked(h.held, rank)
    requires value in h.objs && value in h.owners && h.objs[t].body.entries[j].value != value && !h.objs[value].intern
    modifies h
    ensures h.Inv({}) && h.dying == {} && h.owners == old(h.owners) && IsHash(h, t) && value in h.objs && !h.objs[value].intern
    ensures h.objs[t].body.entries == old(h.objs[t].body.entries)[j := Entry(old(h.objs[t].body.entries)[j].key, value)]
    ensures Framed(old(h.objs), h.objs, t) && t in old(h.held) && t in h.held && value in h.held[t]
    ensures var gone := old(h.objs[t].body.entries)[j].value;
            && (forall y :: y in h.objs <==>
                  Reachable(old(h.objs), old(h.held)[t := old(h.held[t]) - multiset{gone}], h.owners, y))
            && (forall y :: y in h.held && y != t ==> y in old(h.held) && h.held[y] == old(h.held)[y])
            && h.held[t] == old(h.held[t]) - multiset{gone} + multiset{value}
  {
    hide Heap.Inv, Balanced, Refs, BodyRefs, MetaRefs, EntryRefs, Total, Shrunk, Ranked, Reachable, Counted, Framed, HeldLess;
    EntryHeld(h, t, j);
    ghost var gone := h.objs[t].body.entries[j].value;
    OwnedIsReachable(h.objs, h.held[t := h.held[t] - multiset{gone}], h.owners, value);
    ghost var o1 := h.objs;
    var safe := HashReplace(h, t, j, value, rank);
    FramedIntern(o1, h.objs, t, value);
  }

  lemma FramedIntern(objs: map<Id, Cell>, objs': map<Id, Cell>, t: Id, x: Id)
    requires Framed(objs, objs', t) && x in objs'
    ensures x in objs && objs'[x].intern == objs[x].intern
  {
  }

  lemma HeldOfString(h0: Held, h1: Held, h2: Held, t: Id, slot: Id, gone: Id)
    requires t in h0 && t != slot && h1 == h0[slot := multiset{}] && t in h2
    requires h2[t] == h1[t] - multiset{gone} + multiset{slot}
    requires forall y :: y in h2 && y != t ==> y in h1 && h2[y] == h1[y]
    ensures StringHeld(h0, h2, t, slot, gone)
  {
  }

  /** Hash_setattr of a C string under a new key. */
  method AppendString(h: Heap, t: Id, key: Id, slot: Id)
    requires h.Inv({}) && h.dying == {} && IsHash(h, t) && key in h.objs && slot !in h.objs
    modifies h
    ensures h.Inv({}) && h.dying == {} && h.owners == old(h.owners) && IsHash(h, t)
    ensures h.objs.Keys == old(h.objs).Keys + {slot} && t in old(h.held)
    ensures h.objs[t].body.entries == old(h.objs[t].body.entries) + [Entry(key, slot)]
    ensures Framed(old(h.objs), h.objs - {slot}, t) && h.objs[slot].body == Plain && h.objs[slot].meta == None
    ensures h.held == old(h.held)[slot := multiset{}][t := old(h.held[t]) + multiset{key, slot}]
  {
    hide Heap.Inv, Balanced, Refs, BodyRefs, MetaRefs, EntryRefs, Total, Shrunk, Ranked, Reachable, Framed, Counted;
    ghost var o0, w := h.objs, h.owners;
    HeldKnown(h, t);
    PlainHasNone();
    NewObject(h, slot, Plain);
    ghost var o1 := h.objs;
    HashAppend(h, t, key, slot);
    ghost var o2 := h.objs;
    NewFramed(o0, o1, o2, t, slot);
    GiveBack(h, t, slot);
    CountedAfter(o0, o2, h.objs, t, slot);
    BackAgain(w, multiset{slot});
  }

  /** Hash_setattr, with the key object and the place of its entry, if it has one: nothing removes the entry, a C string
      becomes an object of the table's own, an object is shared.  `safe` is false exactly when an object is lost. */
  method Setattr(h: Heap, t: Id, at: Option<nat>, key: Id, value: Given, ghost rank: Id -> nat) returns (r: int, safe: bool)
    requires h.Inv({}) && h.dying == {} && IsHash(h, t) && Ranked(h.held, rank) && key in h.objs && Usable(h, value)
    requires at.Some? ==> at.value < |h.objs[t].body.entries|
    modifies h
    ensures h.dying == {} && h.owners == old(h.owners) && IsHash(h, t) && t in old(h.held)
    ensures r == if at.Some? then 1 else 0
    ensures var entries := old(h.objs[t].body.entries);
            h.objs[t].body.entries ==
              match at
              case None => if value.Nothing? then entries else entries + [Entry(key, IdOf(value))]
              case Some(j) => if value.Nothing? then entries[..j] + entries[j + 1..]
                              else entries[j := Entry(entries[j].key, IdOf(value))]
    ensures if safe then h.Inv({}) else h.Inv({t}) && value.Object? && at.Some? && value.x !in h.objs
    ensures var gone := if at.Some? then old(h.objs[t].body.entries)[at.value].value else 0;
            safe <==> at.None? || !value.Object? || gone == value.x ||
                      Reachable(old(h.objs), old(h.held)[t := old(h.held[t]) - multiset{gone}], old(h.owners), value.x)
    ensures Framed(old(h.objs), if value.CString? then h.objs - {value.slot} else h.objs, t)
    ensures (value.CString? ==> rank(value.slot) < rank(t)) && (value.Object? ==> rank(value.x) < rank(t)) && rank(key) < rank(t)
            ==> Ranked(h.held, rank)
  {
    hide Heap.Inv, Balanced, Refs, BodyRefs, MetaRefs, EntryRefs, Total, Shrunk, Ranked, Reachable, Counted, Framed, HeldLess,
         StringHeld;
    ghost var h0 := h.held;
    HeldKnown(h, t);
    r, safe := if at.Some? then 1 else 0, true;
    match value {
      case Nothing =>
        if at.Some? { HashRemove(h, t, at.value, rank); } else { FramedSelf(h, t); }
      case CString(slot) =>
        if at.Some? {
          SetString(h, t, at.value, slot, rank);
          RankedString(h0, h.held, t, slot, old(h.objs[t].body.entries)[at.value].value, rank);
        } else {
          AppendString(h, t, key, slot);
          RankedPair(h0[slot := multiset{}], h.held, t, key, slot, rank);
          RankedNew(h0, rank, slot);
        }
      case Object(x) =>
        if at.Some? {
          safe := HashReplace(h, t, at.value, x, rank);
          RankedSwap(h0, h.held, t, old(h.objs[t].body.entries)[at.value].value, x, rank);
        } else {
          HashAppend(h, t, key, x);
          RankedPair(h0, h.held, t, key, x, rank);
        }
    }
  }

  lemma RankedString(held: Held, held': Held, t: Id, slot: Id, gone: Id, rank: Id -> nat)
    requires Ranked(held, rank) && StringHeld(held, held', t, slot, gone)
    ensures rank(slot) < rank(t) ==> Ranked(held', rank)
  {
  }

  lemma RankedPair(held: Held, held': Held, t: Id, key: Id, x: Id, rank: Id -> nat)
    requires t in held && held' == held[t := held[t] + multiset{key, x}]
    ensures Ranked(held, rank) && rank(key) < rank(t) && rank(x) < rank(t) ==> Ranked(held', rank)
  {
  }

  lemma RankedSwap(held: Held, held': Held, t: Id, gone: Id, x: Id, rank: Id -> nat)
    requires Ranked(held, rank) && t in held
    requires held' == held ||
             ((forall y :: y in held' && y != t ==> y in held && held'[y] == held[y])
              && t in held' && held'[t] <= held[t] - multiset{gone} + multiset{x})
    ensures rank(x) < rank(t) ==> Ranked(held', rank)
  {
  }
}
