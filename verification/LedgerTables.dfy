/** The operations on tables that move references (Source/DOH/hash.c): each keeps the ledger, and leaves every other
    object as it was but for its count -- except that setting a key anew can lose the object it sets.

    A table is the sequence of its entries here; where each of them hangs is the business of `HashTable`.
 */
module LedgerTables {
  import opened Wrappers
  import opened Ledger
  import opened Reachability
  import opened LedgerOps

  predicate IsHash(h: Heap, t: Id)
    reads h
  {
    t in h.objs && h.objs[t].body.HashBody?
  }

  lemma {:induction false} EntryRefsSplit(a: seq<Entry>, b: seq<Entry>)
    ensures EntryRefs(a + b) == EntryRefs(a) + EntryRefs(b)
  {
    if a == [] {
      assert a + b == b;
    } else {
      assert (a + b)[1..] == a[1..] + b;
      EntryRefsSplit(a[1..], b);
    }
  }

  lemma EntryRefsAt(entries: seq<Entry>, j: nat)
    requires j < |entries|
    ensures var e := entries[j];
            EntryRefs(entries) == EntryRefs(entries[..j] + entries[j + 1..]) + multiset{e.key, e.value}
  {
    var a, b, e := entries[..j], entries[j + 1..], entries[j];
    assert entries == a + ([e] + b);
    EntryRefsSplit(a, [e] + b);
    EntryRefsSplit([e], b);
    EntryRefsSplit(a, b);
    PairRefs(e);
    hide EntryRefs;
    Rotate(EntryRefs(a), multiset{e.key, e.value}, EntryRefs(b));
  }

  lemma Rotate(a: multiset<Id>, m: multiset<Id>, b: multiset<Id>)
    ensures a + (m + b) == a + b + m
  {
  }

  /** NewNode: key and object each gain a reference. */
  method HashAppend(h: Heap, t: Id, key: Id, value: Id)
    requires h.Inv({}) && h.dying == {} && IsHash(h, t) && key in h.objs && value in h.objs
    modifies h
    ensures h.Inv({}) && h.dying == {} && h.owners == old(h.owners) && h.objs.Keys == old(h.objs).Keys && IsHash(h, t)
    ensures h.objs[t].body.entries == old(h.objs[t].body.entries) + [Entry(key, value)]
    ensures Framed(old(h.objs), h.objs, t)
    ensures t in old(h.held) && h.held == old(h.held)[t := old(h.held[t]) + multiset{key, value}]
  {
    hide Heap.Inv, Balanced, Refs, BodyRefs, MetaRefs, EntryRefs, Total, Shrunk, Ranked, Reachable, Counted, Framed, HeldLess;
    Open(h, t);
    var entries := h.objs[t].body.entries;
    AppendedRefs(entries, Entry(key, value), h.held[t], MetaRefs(h.objs[t].meta));
    GainPair(h, t, key, value);
    CountedFramed(old(h.objs), h.objs, t, HashBody(entries + [Entry(key, value)]));
    SetBody(h, t, HashBody(entries + [Entry(key, value)]));
  }

  /** Incref(key), Incref(object) */
  method GainPair(h: Heap, t: Id, key: Id, value: Id)
    requires h.Inv({t}) && h.dying == {} && t in h.held && key in h.objs && value in h.objs
    modifies h`objs, h`held
    ensures h.Inv({t}) && h.held == old(h.held)[t := old(h.held)[t] + multiset{key, value}]
    ensures h.objs.Keys == old(h.objs).Keys && Counted(old(h.objs), h.objs)
    ensures forall y :: y in h.objs ==> h.objs[y] == old(h.objs)[y].(refcount := h.objs[y].refcount)
  {
    hide Heap.Inv, Balanced, Refs, BodyRefs, MetaRefs, EntryRefs, Total, Shrunk, Ranked, Reachable, Counted, Framed, HeldLess;
    AddPair(h.held[t], key, value);
    CountedTwice(h.objs, key, value);
    Gain(h, t, key);
    Gain(h, t, value);
  }

  lemma AddPair(refs: multiset<Id>, k: Id, v: Id)
    ensures refs + multiset{k} + multiset{v} == refs + multiset{k, v}
  {
  }

  lemma CountedTwice(objs: map<Id, Cell>, x: Id, y: Id)
    requires x in objs && y in objs
    ensures var objs1 := objs[x := objs[x].(refcount := objs[x].refcount + 1)];
            Counted(objs, objs1[y := objs1[y].(refcount := objs1[y].refcount + 1)])
  {
  }

  lemma AppendedRefs(entries: seq<Entry>, e: Entry, refs: multiset<Id>, meta: multiset<Id>)
    requires refs == BodyRefs(HashBody(entries)) + meta
    ensures refs + multiset{e.key, e.value} == BodyRefs(HashBody(entries + [e])) + meta
  {
    EntryRefsSplit(entries, [e]);
    PairRefs(e);
    hide EntryRefs;
    SumPair(EntryRefs(entries), e.key, e.value, meta);
  }

  lemma SumPair(rest: multiset<Id>, k: Id, v: Id, meta: multiset<Id>)
    ensures rest + meta + multiset{k, v} == rest + multiset{k, v} + meta
  {
  }

  /** Hash_delattr on entry `j`: the node is unlinked first, then its key and object are released. */
  method HashRemove(h: Heap, t: Id, j: nat, ghost rank: Id -> nat)
    requires h.Inv({}) && h.dying == {} && IsHash(h, t) && j < |h.objs[t].body.entries| && Ranked(h.held, rank)
    modifies h
    ensures h.Inv({}) && h.dying == {} && h.owners == old(h.owners) && IsHash(h, t)
    ensures h.objs[t].body.entries == old(h.objs[t].body.entries)[..j] + old(h.objs[t].body.entries)[j + 1..]
    ensures t in old(h.held)
    ensures var e := old(h.objs[t].body.entries)[j];
            forall y :: y in h.objs <==>
              Reachable(old(h.objs), old(h.held)[t := old(h.held[t]) - multiset{e.key, e.value}], h.owners, y)
    ensures Framed(old(h.objs), h.objs, t) && Ranked(h.held, rank)
    ensures var e := old(h.objs[t].body.entries)[j]; HeldLess(old(h.held), h.held, t, multiset{e.key, e.value})
  {
    hide Heap.Inv, Balanced, Refs, BodyRefs, MetaRefs, EntryRefs, Total, Shrunk, Ranked, Reachable, Counted, Framed, HeldLess;
    ghost var pair := multiset{h.objs[t].body.entries[j].key, h.objs[t].body.entries[j].value};
    var e := UnlinkEntry(h, t, j, rank);
    ghost var o1, h1 := h.objs, h.held;
    DropNode(h, t, e, rank);
    RemovedFacts(h, old(h.objs), o1, h.objs, old(h.held), h1, old(h.owners), t, pair);
  }

  lemma RemovedFacts(h: Heap, o0: map<Id, Cell>, o1: map<Id, Cell>, o2: map<Id, Cell>, h0: Held, h1: Held, w: multiset<Id>,
                     t: Id, pair: multiset<Id>)
    requires t in o0 && t in o1 && t in h0 && h1 == h0[t := h0[t] - pair] && o1 == o0[t := o0[t].(body := o1[t].body)]
    requires Counted(o1, o2) && h.held.Keys <= h1.Keys && forall y :: y in h.held ==> h.held[y] == h1[y]
    requires forall y :: y in o2 <==> Reachable(o1, h1, w, y)
    ensures Framed(o0, o2, t) && HeldLess(h0, h.held, t, pair)
    ensures forall y :: y in o2 <==> Reachable(o0, h0[t := h0[t] - pair], w, y)
  {
    hide Reachable;
    SameRoots(o0, o1, h1, w);
    LessHeld(h0, h1, h.held, t, pair);
  }

  /** The node leaves its chain; its references are the caller's to drop. */
  method UnlinkEntry(h: Heap, t: Id, j: nat, ghost rank: Id -> nat) returns (e: Entry)
    requires h.Inv({}) && h.dying == {} && IsHash(h, t) && j < |h.objs[t].body.entries| && Ranked(h.held, rank)
    modifies h
    ensures h.Inv({}) && h.dying == {} && h.held.Keys == h.objs.Keys && Ranked(h.held, rank)
    ensures e == old(h.objs[t].body.entries)[j] && t in old(h.held)
    ensures var entries := old(h.objs[t].body.entries);
            h.objs == old(h.objs)[t := old(h.objs[t]).(body := HashBody(entries[..j] + entries[j + 1..]))]
    ensures var pair := multiset{e.key, e.value};
            && h.held == old(h.held)[t := old(h.held[t]) - pair]
            && pair <= h.owners && h.owners - pair == old(h.owners) && forall c :: c in pair ==> rank(c) < rank(t)
  {
    hide Heap.Inv, Balanced, Refs, BodyRefs, MetaRefs, EntryRefs, Total, Shrunk, Ranked, Reachable, Counted, Framed, HeldLess;
    Open(h, t);
    var entries := h.objs[t].body.entries;
    e := entries[j];
    EntryRemoved(entries, j, h.held[t], MetaRefs(h.objs[t].meta));
    MoveOut(h, t, multiset{e.key, e.value}, rank);
    SetBody(h, t, HashBody(entries[..j] + entries[j + 1..]));
  }

  /** DelNode on a node already unlinked from table `t`. */
  method DropNode(h: Heap, t: Id, e: Entry, ghost rank: Id -> nat)
    requires h.Inv({}) && h.dying == {} && t in h.held && h.held.Keys == h.objs.Keys && Ranked(h.held, rank)
    requires multiset{e.key, e.value} <= h.owners && forall c :: c in multiset{e.key, e.value} ==> rank(c) < rank(t)
    modifies h
    ensures h.Inv({}) && h.dying == {} && h.owners == old(h.owners) - multiset{e.key, e.value}
    ensures t in h.objs && t in h.held && h.objs[t].body == old(h.objs[t].body) && h.objs[t].meta == old(h.objs[t].meta)
    ensures forall y :: y in h.objs <==> Reachable(old(h.objs), old(h.held), h.owners, y)
    ensures Counted(old(h.objs), h.objs) && Ranked(h.held, rank)
    ensures h.held.Keys <= old(h.held).Keys && forall y :: y in h.held ==> h.held[y] == old(h.held)[y]
  {
    hide *;
    ghost var o1, h1 := h.objs, h.held;
    ShrunkSelf(o1, h1, {}, rank, rank(t));
    PairRefs(e);
    h.DelHash([e], rank(t), rank, {}, o1, h1);
    AfterDelete(h, o1, h1, t, rank, rank(t), {});
  }

  lemma EntryRemoved(entries: seq<Entry>, j: nat, refs: multiset<Id>, meta: multiset<Id>)
    requires j < |entries| && refs == BodyRefs(HashBody(entries)) + meta
    ensures var pair := multiset{entries[j].key, entries[j].value};
            pair <= refs && refs - pair == BodyRefs(HashBody(entries[..j] + entries[j + 1..])) + meta
  {
    EntryRefsAt(entries, j);
  }

  lemma PairRefs(e: Entry)
    ensures EntryRefs([e]) == multiset{e.key, e.value}
  {
    assert [e][1..] == [];
  }

  /** Reachability asks of the cells only which exist and which are interned. */
  lemma SameRoots(objs: map<Id, Cell>, objs': map<Id, Cell>, held: Held, owners: multiset<Id>)
    requires objs.Keys == objs'.Keys && forall x :: x in objs ==> objs'[x].intern == objs[x].intern
    ensures forall y :: Reachable(objs, held, owners, y) <==> Reachable(objs', held, owners, y)
  {
    forall y, n: nat ensures ReachIn(objs, held, owners, y, n) == ReachIn(objs', held, owners, y, n) {
      SameRootsAt(objs, objs', held, owners, y, n);
    }
  }

  lemma {:induction false} SameRootsAt(objs: map<Id, Cell>, objs': map<Id, Cell>, held: Held, owners: multiset<Id>, y: Id, n: nat)
    requires objs.Keys == objs'.Keys && forall x :: x in objs ==> objs'[x].intern == objs[x].intern
    ensures ReachIn(objs, held, owners, y, n) == ReachIn(objs', held, owners, y, n)
    decreases n
  {
    if n > 0 {
      forall p | p in held ensures ReachIn(objs, held, owners, p, n - 1) == ReachIn(objs', held, owners, p, n - 1) {
        SameRootsAt(objs, objs', held, owners, p, n - 1);
      }
    }
  }

  /** Hash_setattr on an entry that is there: the old object is deleted, the new one stored, and only then counted.
      `safe` tells whether the object stored is still there when its count is raised.  It is exactly when, before the
      call, the new object is the old one or is reachable without the entry; otherwise the deletion has freed it, and
      the entry is left naming an object that is gone. */
  method HashReplace(h: Heap, t: Id, j: nat, value: Id, ghost rank: Id -> nat) returns (safe: bool)
    requires h.Inv({}) && h.dying == {} && IsHash(h, t) && j < |h.objs[t].body.entries| && Ranked(h.held, rank)
    requires value in h.objs
    modifies h
    ensures t in old(h.held) && h.dying == {} && h.owners == old(h.owners) && IsHash(h, t)
    ensures var gone := old(h.objs[t].body.entries)[j].value;
            safe <==> gone == value ||
                      Reachable(old(h.objs), old(h.held)[t := old(h.held[t]) - multiset{gone}], old(h.owners), value)
    ensures h.objs[t].body.entries == old(h.objs[t].body.entries)[j := Entry(old(h.objs[t].body.entries)[j].key, value)]
    ensures Framed(old(h.objs), h.objs, t)
    ensures old(h.objs[t].body.entries)[j].value == value ==> h.objs == old(h.objs) && h.held == old(h.held)
    ensures safe ==> h.Inv({}) && value in h.objs
    ensures !safe ==> h.Inv({t}) && value !in h.objs
    ensures var gone := old(h.objs[t].body.entries)[j].value;
            gone != value ==>
              && (forall y :: y in h.objs <==>
                    Reachable(old(h.objs), old(h.held)[t := old(h.held[t]) - multiset{gone}], old(h.owners), y))
              && (forall y :: y in h.held && y != t ==> y in old(h.held) && h.held[y] == old(h.held)[y])
              && t in h.held && h.held[t] == old(h.held[t]) - multiset{gone} + if safe then multiset{value} else multiset{}
  {
    hide Heap.Inv, Balanced, Refs, BodyRefs, MetaRefs, EntryRefs, Total, Shrunk, Ranked, Reachable, Counted, Framed, HeldLess;
    var entries := h.objs[t].body.entries;
    if entries[j].value == value {
      SameEntry(entries, j);
      FramedSelf(h, t);
      return true;
    }
    safe := SwapEntry(h, t, entries, j, value, rank);
  }

  lemma SameEntry(entries: seq<Entry>, j: nat)
    requires j < |entries|
    ensures entries == entries[j := Entry(entries[j].key, entries[j].value)]
  {
  }

  lemma FramedSelf(h: Heap, t: Id)
    requires h.Inv({}) && h.dying == {} && t in h.objs
    ensures Framed(h.objs, h.objs, t) && t in h.held
  {
    hide Refs, Total;
  }

  /** Delete, store, incref, in this order. */
  method SwapEntry(h: Heap, t: Id, entries: seq<Entry>, j: nat, value: Id, ghost rank: Id -> nat) returns (safe: bool)
    requires h.Inv({}) && h.dying == {} && IsHash(h, t) && Ranked(h.held, rank) && value in h.objs
    requires entries == h.objs[t].body.entries && j < |entries| && entries[j].value != value
    modifies h
    ensures t in old(h.held) && h.dying == {} && h.owners == old(h.owners) && IsHash(h, t)
    ensures h.objs[t].body.entries == entries[j := Entry(entries[j].key, value)]
    ensures Framed(old(h.objs), h.objs, t)
    ensures if safe then h.Inv({}) && value in h.objs else h.Inv({t}) && value !in h.objs
    ensures var gone := entries[j].value;
            && (safe <==> Reachable(old(h.objs), old(h.held)[t := old(h.held[t]) - multiset{gone}], old(h.owners), value))
            && (forall y :: y in h.objs <==>
                  Reachable(old(h.objs), old(h.held)[t := old(h.held[t]) - multiset{gone}], old(h.owners), y))
            && (forall y :: y in h.held && y != t ==> y in old(h.held) && h.held[y] == old(h.held)[y])
            && t in h.held && h.held[t] == old(h.held[t]) - multiset{gone} + if safe then multiset{value} else multiset{}
  {
    hide Heap.Inv, Balanced, Refs, BodyRefs, MetaRefs, EntryRefs, Total, Shrunk, Ranked, Reachable, Counted, Framed, HeldLess;
    Open(h, t);
    ReplacedRefs(entries, j, value, h.held[t], MetaRefs(h.objs[t].meta));
    var entries' := entries[j := Entry(entries[j].key, value)];
    DeleteHeld(h, t, entries[j].value, rank);
    ghost var o1, h1 := h.objs, h.held;
    safe := StoreAndCount(h, t, HashBody(entries'), value);
    SwappedFacts(h, old(h.objs), o1, old(h.held), h1, t, entries[j].value, value, safe);
  }

  lemma SwappedFacts(h: Heap, o0: map<Id, Cell>, o1: map<Id, Cell>, h0: Held, h1: Held, t: Id, gone: Id, value: Id, safe: bool)
    requires Counted(o0, o1) && Framed(o1, h.objs, t) && t in h1 && HeldLess(h0, h1, t, multiset{gone})
    requires h.held == if safe then h1[t := h1[t] + multiset{value}] else h1
    ensures Framed(o0, h.objs, t) && t in h0
    ensures forall y :: y in h.held && y != t ==> y in h0 && h.held[y] == h0[y]
    ensures t in h.held && h.held[t] == h0[t] - multiset{gone} + if safe then multiset{value} else multiset{}
  {
  }

  /** n->object = obj, then Incref(obj), which finds the object or not. */
  method StoreAndCount(h: Heap, t: Id, body: Body, value: Id) returns (safe: bool)
    requires h.Inv({t}) && h.dying == {} && t in h.objs && t in h.held
    requires h.held[t] + multiset{value} == BodyRefs(body) + MetaRefs(h.objs[t].meta)
    modifies h`objs, h`held
    ensures safe <==> value in old(h.objs)
    ensures h.objs.Keys == old(h.objs).Keys && Framed(old(h.objs), h.objs, t) && h.objs[t].body == body
    ensures h.held == if safe then old(h.held)[t := old(h.held)[t] + multiset{value}] else old(h.held)
    ensures if safe then h.Inv({}) else h.Inv({t})
  {
    hide Heap.Inv, Balanced, Refs, BodyRefs, MetaRefs, EntryRefs, Total, Shrunk, Ranked, Reachable, Counted, Framed, HeldLess;
    StoredFrame(h.objs, t, body, value);
    Store(h, t, body);
    safe := value in h.objs;
    if safe {
      Gain(h, t, value);
      SetBody(h, t, body);
    }
  }

  lemma StoredFrame(objs: map<Id, Cell>, t: Id, body: Body, value: Id)
    requires t in objs
    ensures var objs1 := objs[t := objs[t].(body := body)];
            && Framed(objs, objs1, t)
            && (value in objs ==>
                  var objs2 := objs1[value := objs1[value].(refcount := objs1[value].refcount + 1)];
                  Framed(objs, objs2, t) && Framed(objs, objs2[t := objs2[t].(body := body)], t))
  {
  }

  /** A store into an object that is being edited. */
  method Store(h: Heap, p: Id, body: Body)
    requires h.Inv({p}) && h.dying == {} && p in h.objs && p in h.held
    modifies h`objs
    ensures h.Inv({p}) && h.objs == old(h.objs)[p := old(h.objs)[p].(body := body)]
  {
    hide Balanced, Refs, Total;
    StoreCell(h.objs, h.held, h.owners, p, h.objs[p].(body := body));
    h.objs := h.objs[p := h.objs[p].(body := body)];
  }

  lemma ReplacedRefs(entries: seq<Entry>, j: nat, value: Id, refs: multiset<Id>, meta: multiset<Id>)
    requires j < |entries| && refs == BodyRefs(HashBody(entries)) + meta
    ensures entries[j].value in refs
    ensures refs - multiset{entries[j].value} + multiset{value}
            == BodyRefs(HashBody(entries[j := Entry(entries[j].key, value)])) + meta
  {
    hide EntryRefs;
    var e := Entry(entries[j].key, value);
    var entries' := entries[j := e];
    EntryRefsAt(entries, j);
    EntryRefsAt(entries', j);
    assert entries'[..j] == entries[..j] && entries'[j + 1..] == entries[j + 1..];
    SwapValue(EntryRefs(entries[..j] + entries[j + 1..]), e.key, entries[j].value, value, meta);
  }

  lemma SwapValue(rest: multiset<Id>, k: Id, v: Id, v': Id, meta: multiset<Id>)
    ensures var refs := rest + multiset{k, v} + meta;
            v in refs && refs - multiset{v} + multiset{v'} == rest + multiset{k, v'} + meta
  {
    var refs := rest + multiset{k, v} + meta;
    forall y ensures (refs - multiset{v} + multiset{v'})[y] == (rest + multiset{k, v'} + meta)[y] {
    }
  }

  /** A caller that owns the new object is always safe. */
  lemma OwnedIsReachable(objs: map<Id, Cell>, held: Held, owners: multiset<Id>, x: Id)
    requires x in objs && x in owners
    ensures Reachable(objs, held, owners, x)
  {
    assert ReachIn(objs, held, owners, x, 0);
  }

  /** Hash_clear: every node is deleted while the table still shows it, then the table is empty. */
  method HashClear(h: Heap, t: Id, ghost rank: Id -> nat)
    requires h.Inv({}) && h.dying == {} && IsHash(h, t) && Ranked(h.held, rank)
    modifies h
    ensures h.Inv({}) && h.dying == {} && h.owners == old(h.owners)
    ensures t in h.objs && h.objs[t].body == HashBody([]) && t in old(h.held)
    ensures forall y :: y in h.objs <==>
              Reachable(old(h.objs), old(h.held)[t := old(h.held[t]) - EntryRefs(old(h.objs[t].body.entries))], h.owners, y)
    ensures Framed(old(h.objs), h.objs, t) && Ranked(h.held, rank)
    ensures HeldLess(old(h.held), h.held, t, EntryRefs(old(h.objs[t].body.entries)))
  {
    hide Heap.Inv, Balanced, Refs, BodyRefs, MetaRefs, EntryRefs, Total, Shrunk, Ranked, Reachable, Counted, Framed, HeldLess;
    Open(h, t);
    var entries := h.objs[t].body.entries;
    ClearedEntries(entries, h.held[t], MetaRefs(h.objs[t].meta));
    DropEntries(h, t, entries, rank);
    CountedFramed(old(h.objs), h.objs, t, HashBody([]));
    SetBody(h, t, HashBody([]));
  }

  /** The deleting loop of Hash_clear. */
  method DropEntries(h: Heap, t: Id, entries: seq<Entry>, ghost rank: Id -> nat)
    requires h.Inv({t}) && h.dying == {} && t in h.held && h.held.Keys == h.objs.Keys && Ranked(h.held, rank)
    requires EntryRefs(entries) <= h.held[t]
    modifies h
    ensures h.Inv({t}) && h.dying == {} && h.owners == old(h.owners)
    ensures t in h.objs && t in h.held && h.held[t] == old(h.held[t]) - EntryRefs(entries)
    ensures h.objs[t].body == old(h.objs[t].body) && h.objs[t].meta == old(h.objs[t].meta)
    ensures forall y :: y in h.objs <==>
              Reachable(old(h.objs), old(h.held)[t := old(h.held[t]) - EntryRefs(entries)], h.owners, y)
    ensures Counted(old(h.objs), h.objs) && Ranked(h.held, rank) && HeldLess(old(h.held), h.held, t, EntryRefs(entries))
  {
    hide *;
    MoveOut(h, t, EntryRefs(entries), rank);
    ghost var o1, h1 := h.objs, h.held;
    ShrunkSelf(o1, h1, {}, rank, rank(t));
    h.DelHash(entries, rank(t), rank, {t}, o1, h1);
    AfterDelete(h, o1, h1, t, rank, rank(t), {t});
    LessHeld(old(h.held), h1, h.held, t, EntryRefs(entries));
  }

  lemma ClearedEntries(entries: seq<Entry>, refs: multiset<Id>, meta: multiset<Id>)
    requires refs == BodyRefs(HashBody(entries)) + meta
    ensures EntryRefs(entries) <= refs && refs - EntryRefs(entries) == BodyRefs(HashBody([])) + meta
  {
    NoEntries();
  }

  /** CopyHash: a new table, filled entry by entry; keys and objects are shared, each counted once more. */
  method CopyHash(h: Heap, t: Id, slot: Id)
    requires h.Inv({}) && h.dying == {} && IsHash(h, t) && slot !in h.objs
    modifies h
    ensures h.Inv({}) && h.dying == {} && h.owners == old(h.owners) + multiset{slot}
    ensures h.objs.Keys == old(h.objs).Keys + {slot} && h.objs[slot].body == old(h.objs[t].body) && h.objs[slot].meta == None
    ensures h.held == old(h.held)[slot := EntryRefs(old(h.objs[t].body.entries))]
    ensures Counted(old(h.objs), h.objs - {slot})
  {
    hide Heap.Inv, Balanced, Refs, BodyRefs, MetaRefs, EntryRefs, Total, Framed, Counted;
    var entries := h.objs[t].body.entries;
    EntriesLive(h, t);
    ghost var o0 := h.objs;
    NoEntries();
    EmptyEntries();
    NewObject(h, slot, HashBody([]));
    NewCounted(o0, h.objs, slot);
    var i := 0;
    while i < |entries|
      invariant 0 <= i <= |entries| && h.Inv({}) && h.dying == {} && h.owners == old(h.owners) + multiset{slot}
      invariant h.objs.Keys == old(h.objs).Keys + {slot} && IsHash(h, slot)
      invariant h.objs[slot].body.entries == entries[..i] && h.objs[slot].meta == None
      invariant h.held == old(h.held)[slot := EntryRefs(entries[..i])]
      invariant Counted(o0, h.objs - {slot})
    {
      ghost var o1 := h.objs;
      HashAppend(h, slot, entries[i].key, entries[i].value);
      EntryRefsSnoc(entries, i);
      AppendCounted(o0, o1, h.objs, slot);
      i := i + 1;
    }
    assert entries[..i] == entries;
  }

  lemma EntriesLive(h: Heap, t: Id)
    requires h.Inv({}) && h.dying == {} && IsHash(h, t)
    ensures forall i :: 0 <= i < |h.objs[t].body.entries| ==>
              h.objs[t].body.entries[i].key in h.objs && h.objs[t].body.entries[i].value in h.objs
  {
    hide Balanced, EntryRefs, MetaRefs, Total;
    KnownCell(h.objs, h.held, h.owners, {}, t);
    var entries := h.objs[t].body.entries;
    forall i | 0 <= i < |entries| ensures entries[i].key in h.objs && entries[i].value in h.objs {
      EntryRefsAt(entries, i);
      assert entries[i].key in h.held[t] && entries[i].value in h.held[t];
      KnownItem(h.objs, h.held, h.owners, entries[i].key);
      KnownItem(h.objs, h.held, h.owners, entries[i].value);
    }
  }

  lemma EmptyEntries()
    ensures EntryRefs([]) == multiset{}
  {
  }

  lemma EntryRefsSnoc(entries: seq<Entry>, i: nat)
    requires i < |entries|
    ensures EntryRefs(entries[..i + 1]) == EntryRefs(entries[..i]) + multiset{entries[i].key, entries[i].value}
    ensures entries[..i + 1] == entries[..i] + [Entry(entries[i].key, entries[i].value)]
  {
    hide EntryRefs;
    assert entries[..i + 1] == entries[..i] + [entries[i]];
    EntryRefsSplit(entries[..i], [entries[i]]);
    PairRefs(entries[i]);
  }

  lemma NewCounted(objs: map<Id, Cell>, objs': map<Id, Cell>, slot: Id)
    requires slot !in objs && slot in objs' && objs' == objs[slot := objs'[slot]]
    ensures Counted(objs, objs' - {slot})
  {
  }

  lemma AppendCounted(objs: map<Id, Cell>, objs1: map<Id, Cell>, objs2: map<Id, Cell>, slot: Id)
    requires Counted(objs, objs1 - {slot}) && Framed(objs1, objs2, slot) && slot in objs2
    ensures Counted(objs, objs2 - {slot}) && slot in objs1 && objs2[slot].meta == objs1[slot].meta
  {
  }

  // ----- a run that loses its object

  function ById(x: Id): nat { if x > 4 then 0 else 4 - x }

  const FOUR: Held := map[1 := multiset{2, 3}, 2 := multiset{}, 3 := multiset{4}, 4 := multiset{}]

  ghost predicate NoneInterned(objs: map<Id, Cell>) {
    forall x :: x in objs ==> !objs[x].intern
  }

  lemma NoRefs()
    ensures BodyRefs(Plain) == BodyRefs(ListBody([])) == BodyRefs(HashBody([])) == multiset{}
    ensures Ranked(FOUR, ById)
  {
  }

  lemma AllFour(objs: map<Id, Cell>, owners: multiset<Id>)
    requires objs.Keys == {1, 2, 3, 4} && 1 in owners
    ensures forall y :: y in {1, 2, 3, 4} ==> Reachable(objs, FOUR, owners, y)
  {
    hide ReachIn;
    Root(objs, FOUR, owners, 1);
    OneStep(objs, FOUR, owners, 1, 2, 0);
    OneStep(objs, FOUR, owners, 1, 3, 0);
    OneStep(objs, FOUR, owners, 3, 4, 1);
  }

  lemma Root(objs: map<Id, Cell>, held: Held, owners: multiset<Id>, x: Id)
    requires x in objs && x in owners
    ensures ReachIn(objs, held, owners, x, 0)
  {
  }

  lemma OneStep(objs: map<Id, Cell>, held: Held, owners: multiset<Id>, p: Id, x: Id, n: nat)
    requires p in held && x in held[p] && ReachIn(objs, held, owners, p, n)
    ensures ReachIn(objs, held, owners, x, n + 1)
  {
  }

  /** The same without the table's reference to the list. */
  const CUT: Held := FOUR[1 := multiset{2, 3} - multiset{3}]

  lemma OnlyTheList(p: Id)
    requires p in CUT
    ensures 3 !in CUT[p] && (4 in CUT[p] ==> p == 3)
  {
    assert multiset{2, 3} - multiset{3} == multiset{2};
  }

  /** Once the table no longer holds the list, nothing leads to it, nor to object 4. */
  lemma {:induction false} CutOff(objs: map<Id, Cell>, owners: multiset<Id>, x: Id, n: nat)
    requires NoneInterned(objs) && owners == multiset{1, 2} && (x == 3 || x == 4)
    ensures !ReachIn(objs, CUT, owners, x, n)
    decreases n
  {
    if n > 0 {
      forall p | p in CUT && x in CUT[p] ensures !ReachIn(objs, CUT, owners, p, n - 1) {
        OnlyTheList(p);
        CutOff(objs, owners, 3, n - 1);
      }
    }
  }

  lemma Unreached(objs: map<Id, Cell>, owners: multiset<Id>)
    requires NoneInterned(objs) && owners == multiset{1, 2}
    ensures !Reachable(objs, CUT, owners, 4)
  {
    hide ReachIn;
    if Reachable(objs, CUT, owners, 4) {
      var n: nat :| ReachIn(objs, CUT, owners, 4, n);
      CutOff(objs, owners, 4, n);
    }
  }

  method FourAlone() returns (h: Heap)
    ensures fresh(h) && h.Inv({}) && h.dying == {} && h.owners == multiset{1, 2, 3, 4}
    ensures h.held == map[1 := multiset{}, 2 := multiset{}, 3 := multiset{}, 4 := multiset{}]
    ensures h.objs == map[1 := Cell(HashBody([]), None, 1, false), 2 := Cell(Plain, None, 1, false),
                          3 := Cell(ListBody([]), None, 1, false), 4 := Cell(Plain, None, 1, false)]
  {
    hide Heap.Inv, Balanced, Refs, BodyRefs, MetaRefs, EntryRefs, Total, Shrunk, Ranked, Reachable, Counted, Framed, HeldLess;
    h := new Heap();
    NoRefs();
    NewObject(h, 1, HashBody([]));
    NewObject(h, 2, Plain);
    NewObject(h, 3, ListBody([]));
    NewObject(h, 4, Plain);
  }

  /** The four objects, all owned by the program: table 1 files list 3 under key 2, and the list holds object 4. */
  method FourObjects() returns (h: Heap)
    ensures fresh(h) && h.Inv({}) && h.dying == {} && h.owners == multiset{1, 2, 3, 4} && h.held == FOUR
    ensures h.objs.Keys == {1, 2, 3, 4} && NoneInterned(h.objs) && h.objs[1].body == HashBody([Entry(2, 3)])
  {
    hide Heap.Inv, Balanced, Refs, BodyRefs, MetaRefs, EntryRefs, Total, Shrunk, Ranked, Reachable, Counted, Framed, HeldLess;
    h := FourAlone();
    ghost var o0 := h.objs;
    HashAppend(h, 1, 2, 3);
    ghost var o1 := h.objs;
    assert [] + [Entry(2, 3)] == [Entry(2, 3)];
    LinkedUp();
    FourBodies(o0, o1);
    InsertItem(h, 3, 0, 4);
    FourFrames(o0, o1, h.objs);
  }

  lemma LinkedUp()
    ensures var none: Held := map[1 := multiset{}, 2 := multiset{}, 3 := multiset{}, 4 := multiset{}];
            var one := none[1 := none[1] + multiset{2, 3}];
            one[3 := one[3] + multiset{4}] == FOUR
  {
    var none: Held := map[1 := multiset{}, 2 := multiset{}, 3 := multiset{}, 4 := multiset{}];
    var one := none[1 := none[1] + multiset{2, 3}];
    var two := one[3 := one[3] + multiset{4}];
    assert none[1] + multiset{2, 3} == multiset{2, 3} && one[3] + multiset{4} == multiset{4};
    forall x | x in FOUR ensures two[x] == FOUR[x] {
    }
    assert two.Keys == FOUR.Keys;
  }

  lemma FourBodies(o0: map<Id, Cell>, o1: map<Id, Cell>)
    requires o0.Keys == o1.Keys == {1, 2, 3, 4} && Framed(o0, o1, 1) && o0[3].body == ListBody([])
    ensures o1[3].body == ListBody([])
  {
  }

  lemma FourFrames(o0: map<Id, Cell>, o1: map<Id, Cell>, o2: map<Id, Cell>)
    requires NoneInterned(o0) && Framed(o0, o1, 1) && Framed(o1, o2, 3)
    ensures NoneInterned(o2) && (1 in o2 ==> 1 in o1 && o2[1].body == o1[1].body)
  {
  }

  /** The program gives up its reference to `x`, which the table and the list keep alive. */
  method GiveUp(h: Heap, x: Id)
    requires h.Inv({}) && h.dying == {} && x in h.owners && x != 1 && 1 in h.owners && h.held == FOUR
    requires h.objs.Keys == {1, 2, 3, 4} && NoneInterned(h.objs)
    modifies h
    ensures h.Inv({}) && h.dying == {} && h.owners == old(h.owners) - multiset{x} && h.held == FOUR
    ensures h.objs.Keys == {1, 2, 3, 4} && NoneInterned(h.objs) && h.objs[1].body == old(h.objs)[1].body
  {
    hide Balanced, Refs, Total, Reachable, Ranked;
    NoRefs();
    AllFour(h.objs, h.owners - multiset{x});
    DohDelete(h, x, ById);
    LiveKeys(h.objs, {}, h.held, h.owners, {});
  }

  /** A table whose one object is a list that holds the only reference to another object; that object, borrowed from
      the list, is set under the same key.  Deleting the list frees it before it is counted. */
  method BorrowedIsLost() returns (h: Heap, safe: bool)
    ensures !safe && h.dying == {} && h.owners == multiset{1, 2}
    ensures 1 in h.objs && h.objs[1].body == HashBody([Entry(2, 4)]) && 4 !in h.objs
  {
    hide Heap.Inv, Balanced, Refs, BodyRefs, MetaRefs, EntryRefs, Total, Shrunk, Ranked, Reachable, Counted, Framed, HeldLess;
    h := FourObjects();
    GiveUp(h, 3);
    GiveUp(h, 4);
    assert h.owners == multiset{1, 2};
    Unreached(h.objs, h.owners);
    NoRefs();
    safe := HashReplace(h, 1, 0, 4, ById);
    assert [Entry(2, 3)][0 := Entry(2, 4)] == [Entry(2, 4)];
  }
}
