/** Reference counts and the cascade of `DohDelete` (Source/DOH/base.c, memory.c, list.c, hash.c).

    The heap is a finite map from identities to cells.  A ledger accompanies it: `held` says which references each
    live object accounts for, `owners` which references are held outside (by the program or by a call in progress).
    The count of every live, non-interned object is the number of references in the ledger.
 */
module Ledger {
  import opened Wrappers

  type Id = nat
  type Held = map<Id, multiset<Id>>

  /** A hash node owns its key and its object. */
  datatype Entry = Entry(key: Id, value: Id)

  datatype Body = Plain | ListBody(items: seq<Id>) | HashBody(entries: seq<Entry>)

  datatype Cell = Cell(body: Body, meta: Option<Id>, refcount: int, intern: bool)

  function EntryRefs(entries: seq<Entry>): multiset<Id> {
    if entries == [] then multiset{}
    else multiset{entries[0].key, entries[0].value} + EntryRefs(entries[1..])
  }

  function BodyRefs(body: Body): multiset<Id> {
    match body
    case Plain => multiset{}
    case ListBody(items) => multiset(items)
    case HashBody(entries) => EntryRefs(entries)
  }

  function MetaRefs(meta: Option<Id>): multiset<Id> {
    if meta.Some? then multiset{meta.value} else multiset{}
  }

  function Refs(c: Cell): multiset<Id> {
    BodyRefs(c.body) + MetaRefs(c.meta)
  }

  // ----- the ledger

  ghost function Total(held: Held): multiset<Id> {
    if held == map[] then multiset{}
    else
      var k :| k in held;
      held[k] + Total(held - {k})
  }

  lemma {:induction false} TotalRemove(held: Held, k: Id)
    requires k in held
    ensures Total(held) == held[k] + Total(held - {k})
    decreases |held|
  {
    var p :| p in held && Total(held) == held[p] + Total(held - {p});
    if p != k {
      TotalRemove(held - {p}, k);
      assert k in held - {p};
      TotalRemove(held - {k}, p);
      assert held - {p} - {k} == held - {k} - {p};
    }
  }

  lemma TotalUpdate(held: Held, k: Id, refs: multiset<Id>)
    requires k in held
    ensures Total(held[k := refs]) + held[k] == Total(held) + refs
  {
    TotalRemove(held, k);
    TotalRemove(held[k := refs], k);
    assert held[k := refs] - {k} == held - {k};
  }

  lemma TotalAdd(held: Held, k: Id, refs: multiset<Id>)
    requires k !in held
    ensures Total(held[k := refs]) == Total(held) + refs
  {
    TotalRemove(held[k := refs], k);
    assert held[k := refs] - {k} == held;
  }

  lemma {:induction false} TotalMember(held: Held, x: Id) returns (p: Id)
    requires x in Total(held)
    ensures p in held && x in held[p]
    decreases |held|
  {
    p :| p in held && Total(held) == held[p] + Total(held - {p});
    if x !in held[p] {
      p := TotalMember(held - {p}, x);
    }
  }

  lemma TotalContains(held: Held, p: Id, x: Id)
    requires p in held && x in held[p]
    ensures x in Total(held)
  {
    TotalRemove(held, p);
  }

  /** `dying` objects are being torn down: their references already count as outside ones.  `open` objects are in
      the middle of an edit, so that their cells and their ledger entries differ for the moment. */
  ghost predicate Balanced(objs: map<Id, Cell>, dying: set<Id>, held: Held, owners: multiset<Id>, open: set<Id>) {
    && dying <= objs.Keys
    && held.Keys == objs.Keys - dying
    && (forall p, x :: p in held && x in held[p] ==> x in held)
    && (forall x :: x in owners ==> x in held)
    && (forall x :: x in held && !objs[x].intern ==> objs[x].refcount == (owners + Total(held))[x] > 0)
    && (forall p :: p in held && p !in open ==> held[p] == Refs(objs[p]))
  }

  /** Acyclic: references go strictly down a ranking. */
  ghost predicate Ranked(held: Held, rank: Id -> nat) {
    forall p, x :: p in held && x in held[p] ==> rank(x) < rank(p)
  }

  /** What a cascade may do: objects below `top` may go, the counts of others may change, nothing else. */
  ghost predicate Shrunk(objs: map<Id, Cell>, held: Held, objs': map<Id, Cell>, held': Held, dying: set<Id>, rank: Id -> nat, top: nat) {
    && objs'.Keys <= objs.Keys && held'.Keys <= held.Keys
    && (forall p :: p in held' ==> held'[p] == held[p])
    && (forall x :: x in objs' ==> objs'[x] == objs[x].(refcount := objs'[x].refcount))
    && (forall x :: x in dying && x in objs ==> x in objs' && objs'[x] == objs[x])
    && (forall x :: x in held && x in objs && (top <= rank(x) || objs[x].intern) ==> x in held')
  }

  lemma ShrunkTransitive(objs0: map<Id, Cell>, held0: Held, objs1: map<Id, Cell>, held1: Held, objs2: map<Id, Cell>, held2: Held,
                         dying: set<Id>, rank: Id -> nat, top: nat, top': nat)
    requires Shrunk(objs0, held0, objs1, held1, dying, rank, top) && Shrunk(objs1, held1, objs2, held2, dying, rank, top')
    requires top' <= top && held1.Keys <= objs1.Keys
    ensures Shrunk(objs0, held0, objs2, held2, dying, rank, top)
  {
  }

  lemma ShrunkRanked(objs: map<Id, Cell>, held: Held, objs': map<Id, Cell>, held': Held, dying: set<Id>, rank: Id -> nat, top: nat)
    requires Shrunk(objs, held, objs', held', dying, rank, top) && Ranked(held, rank)
    ensures Ranked(held', rank)
  {
  }

  lemma ShrunkSelf(objs: map<Id, Cell>, held: Held, dying: set<Id>, rank: Id -> nat, top: nat)
    ensures Shrunk(objs, held, objs, held, dying, rank, top)
  {
  }

  /** Counting one reference less keeps the balance; when it was the last one, the object's own references become
      outside ones. */
  lemma DecrementKeeps(objs: map<Id, Cell>, dying: set<Id>, held: Held, owners: multiset<Id>, open: set<Id>, x: Id)
    requires Balanced(objs, dying, held, owners, open) && x in owners && !objs[x].intern
    ensures var objs' := objs[x := objs[x].(refcount := objs[x].refcount - 1)];
            if objs[x].refcount > 1 then Balanced(objs', dying, held, owners - multiset{x}, open)
            else Balanced(objs', dying + {x}, held - {x}, owners - multiset{x} + held[x], open)
  {
    hide Refs, Total;
    var all, owners' := owners + Total(held), owners - multiset{x};
    var objs' := objs[x := objs[x].(refcount := objs[x].refcount - 1)];
    if objs[x].refcount > 1 {
      RefsSame(objs[x], objs'[x]);
    } else {
      TotalRemove(held, x);
      var held' := held - {x};
      assert owners' + held[x] + Total(held') == all - multiset{x};
      assert (all - multiset{x})[x] == 0;
      assert (owners' + held[x])[x] == 0 && Total(held')[x] == 0;
      forall p, c | p in held' && c in held'[p] ensures c in held' {
        TotalContains(held', p, c);
      }
    }
  }

  lemma RefsSame(c: Cell, d: Cell)
    requires c.body == d.body && c.meta == d.meta
    ensures Refs(c) == Refs(d)
  {
  }

  lemma KnownObject(objs: map<Id, Cell>, dying: set<Id>, held: Held, owners: multiset<Id>, open: set<Id>, x: Id)
    requires Balanced(objs, dying, held, owners, open) && x in owners
    ensures x in objs && x in held && x !in dying
    ensures objs[x].intern || objs[x].refcount > 0
  {
    hide Refs, Total;
  }

  lemma HeldInObjs(objs: map<Id, Cell>, dying: set<Id>, held: Held, owners: multiset<Id>, open: set<Id>)
    requires Balanced(objs, dying, held, owners, open)
    ensures held.Keys <= objs.Keys
  {
    hide Refs, Total;
  }

  /** An interned object gives up a reference without being counted. */
  lemma DropInterned(objs: map<Id, Cell>, dying: set<Id>, held: Held, owners: multiset<Id>, open: set<Id>, x: Id)
    requires Balanced(objs, dying, held, owners, open) && x in owners && x in objs && objs[x].intern
    ensures Balanced(objs, dying, held, owners - multiset{x}, open)
  {
    hide Refs, Total;
  }

  lemma TakeItem(rest: multiset<Id>, items: seq<Id>, i: nat)
    requires i < |items|
    ensures items[i] in multiset(items) && items[i] in rest + multiset(items[i..])
    ensures rest + multiset(items[i..]) - multiset{items[i]} == rest + multiset(items[i + 1..])
  {
    assert items[i] in items;
    assert items[i..] == [items[i]] + items[i + 1..];
  }

  /** What the tearing down of `x` needs to know about it, from the state before the count went to zero. */
  lemma RetireFacts(objs: map<Id, Cell>, dying: set<Id>, held: Held, owners: multiset<Id>, open: set<Id>, x: Id, rank: Id -> nat)
    requires Balanced(objs, dying, held, owners, open) && x in owners && Ranked(held, rank)
    requires forall o :: o in open ==> rank(x) < rank(o)
    ensures x in objs && x in held && held[x] == Refs(objs[x].(refcount := objs[x].refcount - 1))
    ensures forall c :: c in held[x] ==> rank(c) < rank(x)
    ensures Ranked(held - {x}, rank)
  {
    hide Total, Refs;
    RefsSame(objs[x], objs[x].(refcount := objs[x].refcount - 1));
  }

  lemma RetireShrinks(objs: map<Id, Cell>, held: Held, dying: set<Id>, x: Id, rank: Id -> nat)
    requires x in objs && !objs[x].intern && x !in dying
    ensures var objs' := objs[x := objs[x].(refcount := objs[x].refcount - 1)];
            && Shrunk(objs, held, objs', held, dying, rank, rank(x) + 1)
            && Shrunk(objs, held, objs', held - {x}, dying + {x} - {x}, rank, rank(x) + 1)
  {
    assert dying + {x} - {x} == dying;
  }

  lemma RefsParts(c: Cell)
    ensures Refs(c) == BodyRefs(c.body) + MetaRefs(c.meta)
    ensures forall x :: x in BodyRefs(c.body) || x in MetaRefs(c.meta) ==> x in Refs(c)
  {
    hide BodyRefs, MetaRefs;
  }

  lemma TakeTwo(rest: multiset<Id>, k: Id, v: Id, tail: multiset<Id>)
    ensures var w := rest + (multiset{k, v} + tail);
            k in w && v in w - multiset{k} && w - multiset{k} - multiset{v} == rest + tail
  {
    assert multiset{k, v} == multiset{k} + multiset{v};
  }

  lemma EntryRefsStep(entries: seq<Entry>, i: nat)
    requires i <= |entries|
    ensures if i == |entries| then EntryRefs(entries[i..]) == multiset{}
            else EntryRefs(entries[i..]) == multiset{entries[i].key, entries[i].value} + EntryRefs(entries[i + 1..])
  {
    if i < |entries| { assert entries[i..][1..] == entries[i + 1..]; }
  }

  lemma TakeAway(w: multiset<Id>, a: multiset<Id>, b: multiset<Id>)
    requires a + b <= w
    ensures a <= w && b <= w - a && w - a - b == w - (a + b)
  {
    assert forall c :: a[c] + b[c] == (a + b)[c] <= w[c];
  }

  lemma EntryKeys(entries: seq<Entry>, i: nat)
    requires i < |entries|
    ensures entries[i].key in EntryRefs(entries[i..]) && entries[i].value in EntryRefs(entries[i..])
    ensures forall c :: c in EntryRefs(entries[i + 1..]) ==> c in EntryRefs(entries[i..])
  {
    EntryRefsStep(entries, i);
  }

  lemma MetaRefsOf(meta: Option<Id>)
    ensures MetaRefs(meta) == if meta.Some? then multiset{meta.value} else multiset{}
  {
  }

  lemma ShrunkDying(objs: map<Id, Cell>, held: Held, objs': map<Id, Cell>, held': Held, dying: set<Id>, rank: Id -> nat, top: nat, x: Id)
    requires Shrunk(objs, held, objs', held', dying, rank, top) && x in dying && x in objs
    ensures x in objs' && objs'[x] == objs[x] && Shrunk(objs, held, objs', held', dying - {x}, rank, top)
  {
  }

  /** Giving back the slot of an object that is torn down. */
  lemma FreeKeeps(objs: map<Id, Cell>, dying: set<Id>, held: Held, owners: multiset<Id>, open: set<Id>, x: Id)
    requires Balanced(objs, dying, held, owners, open) && x in dying
    ensures Balanced(objs - {x}, dying - {x}, held, owners, open)
  {
    hide Refs, Total;
    var objs' := objs - {x};
    assert x !in held;
    assert forall p :: p in held ==> p in objs' && objs'[p] == objs[p];
    assert objs'.Keys - (dying - {x}) == objs.Keys - dying;
  }

  lemma FreeShrinks(o0: map<Id, Cell>, h0: Held, objs: map<Id, Cell>, held: Held, dying: set<Id>, x: Id, rank: Id -> nat, top: nat)
    requires Shrunk(o0, h0, objs, held, dying - {x}, rank, top)
    ensures Shrunk(o0, h0, objs - {x}, held, dying - {x}, rank, top)
  {
    var objs' := objs - {x};
    assert forall p :: p in objs' ==> p in objs && objs'[p] == objs[p];
  }

  // ----- what an operation leaves alone

  /** Of what is left, only counts have changed. */
  ghost predicate Counted(objs: map<Id, Cell>, objs': map<Id, Cell>) {
    forall y :: y in objs' ==> y in objs && objs'[y] == objs[y].(refcount := objs'[y].refcount)
  }

  /** Of what is left, only counts have changed, and the body of `p`. */
  ghost predicate Framed(objs: map<Id, Cell>, objs': map<Id, Cell>, p: Id) {
    forall y :: y in objs' ==>
      y in objs && objs'[y] == objs[y].(refcount := objs'[y].refcount, body := if y == p then objs'[y].body else objs[y].body)
  }

  /** What is left holds what it held, except that `p` has dropped `refs`. */
  ghost predicate HeldLess(held: Held, held': Held, p: Id, refs: multiset<Id>) {
    forall y :: y in held' ==> y in held && held'[y] == if y == p then held[y] - refs else held[y]
  }

  lemma CountedFramed(objs: map<Id, Cell>, objs': map<Id, Cell>, p: Id, body: Body)
    requires Counted(objs, objs') && p in objs'
    ensures Framed(objs, objs'[p := objs'[p].(body := body)], p)
  {
  }

  class Heap {
    var objs: map<Id, Cell>
    ghost var dying: set<Id>
    ghost var held: Held
    ghost var owners: multiset<Id>

    ghost predicate Inv(open: set<Id>)
      reads this
    {
      Balanced(objs, dying, held, owners, open)
    }

    /** The program starts without objects. */
    constructor ()
      ensures Inv({}) && objs == map[] && held == map[] && owners == multiset{} && dying == {}
    {
      objs, held, owners, dying := map[], map[], multiset{}, {};
    }

    lemma InvHeld(open: set<Id>)
      requires Inv(open)
      ensures held.Keys <= objs.Keys
    {
      HeldInObjs(objs, dying, held, owners, open);
    }

    /** DohDelete: one outside reference to `x` goes. */
    method Delete(x: Id, ghost rank: Id -> nat, ghost open: set<Id>)
      requires Inv(open) && x in owners && Ranked(held, rank)
      requires forall o :: o in open ==> rank(x) < rank(o)
      modifies this
      ensures Inv(open) && owners == old(owners) - multiset{x} && dying == old(dying)
      ensures Shrunk(old(objs), old(held), objs, held, dying, rank, rank(x) + 1)
      decreases rank(x), 4
    {
      hide Balanced, Shrunk, Ranked, Refs, BodyRefs, MetaRefs, EntryRefs, Total;
      KnownObject(objs, dying, held, owners, open, x);
      if objs[x].intern {
        DropInterned(objs, dying, held, owners, open, x);
        owners := owners - multiset{x};
        ShrunkSelf(objs, held, dying, rank, rank(x) + 1);
        return;
      }
      ghost var o0, h0, d0 := objs, held, dying;
      var last := Decrement(x, rank, open);
      if last {
        Dismantle(x, rank, open, o0, h0);
        assert dying == d0;
      }
    }

    /** The count goes down; with the last reference the object's own references become outside ones. */
    method Decrement(x: Id, ghost rank: Id -> nat, ghost open: set<Id>) returns (last: bool)
      requires Inv(open) && x in owners && x in objs && !objs[x].intern && x !in dying && Ranked(held, rank)
      requires forall o :: o in open ==> rank(x) < rank(o)
      modifies this
      ensures Inv(open) && x in objs
      ensures !last ==>
                && owners == old(owners) - multiset{x} && dying == old(dying)
                && Shrunk(old(objs), old(held), objs, held, dying, rank, rank(x) + 1)
      ensures last ==>
                && x in dying && dying == old(dying) + {x} && Ranked(held, rank)
                && Refs(objs[x]) <= owners && owners - Refs(objs[x]) == old(owners) - multiset{x}
                && (forall c :: c in Refs(objs[x]) ==> rank(c) < rank(x))
                && Shrunk(old(objs), old(held), objs, held, dying - {x}, rank, rank(x) + 1)
    {
      hide Balanced, Shrunk, Ranked, Refs, BodyRefs, MetaRefs, EntryRefs, Total;
      DecrementKeeps(objs, dying, held, owners, open, x);
      RetireFacts(objs, dying, held, owners, open, x, rank);
      RetireShrinks(objs, held, dying, x, rank);
      objs := objs[x := objs[x].(refcount := objs[x].refcount - 1)];
      owners := owners - multiset{x};
      last := objs[x].refcount <= 0;
      if last {
        held, owners, dying := held - {x}, owners + held[x], dying + {x};
      }
    }

    /** The part of `DohDelete` behind the count reaching zero: doh_del, then DohObjFree. */
    method Dismantle(x: Id, ghost rank: Id -> nat, ghost open: set<Id>, ghost o0: map<Id, Cell>, ghost h0: Held)
      requires Inv(open) && x in objs && x in dying && Ranked(held, rank) && Refs(objs[x]) <= owners
      requires forall c :: c in Refs(objs[x]) ==> rank(c) < rank(x)
      requires forall o :: o in open ==> rank(x) < rank(o)
      requires Shrunk(o0, h0, objs, held, dying - {x}, rank, rank(x) + 1)
      modifies this
      ensures Inv(open) && owners == old(owners) - old(Refs(objs[x])) && dying == old(dying) - {x}
      ensures Shrunk(o0, h0, objs, held, dying, rank, rank(x) + 1)
      decreases rank(x), 3
    {
      hide *;
      InvHeld(open);
      ghost var o1, h1, w1, c := objs, held, owners, objs[x];
      ShrunkSelf(o1, h1, dying, rank, rank(x));
      RefsParts(c);
      TakeAway(w1, BodyRefs(c.body), MetaRefs(c.meta));
      DelBody(x, objs[x].body, rank, open, o1, h1);
      ShrunkDying(o1, h1, objs, held, dying, rank, rank(x), x);
      ObjFree(x, rank, open, o1, h1);
      ShrunkTransitive(o0, h0, o1, h1, objs, held, dying, rank, rank(x) + 1, rank(x));
    }

    /** `doh_del`, by type. */
    method DelBody(ghost x: Id, body: Body, ghost rank: Id -> nat, ghost open: set<Id>, ghost o0: map<Id, Cell>, ghost h0: Held)
      requires Inv(open) && Ranked(held, rank) && BodyRefs(body) <= owners
      requires forall c :: c in BodyRefs(body) ==> rank(c) < rank(x)
      requires forall o :: o in open ==> rank(x) < rank(o)
      requires Shrunk(o0, h0, objs, held, dying, rank, rank(x))
      modifies this
      ensures Inv(open) && owners == old(owners) - BodyRefs(body) && dying == old(dying) && Ranked(held, rank)
      ensures Shrunk(o0, h0, objs, held, dying, rank, rank(x))
      decreases rank(x), 2
    {
      hide Inv, Balanced, Shrunk, Ranked, EntryRefs;
      match body {
        case Plain =>
        case ListBody(items) => DelList(items, rank(x), rank, open, o0, h0);
        case HashBody(entries) => DelHash(entries, rank(x), rank, open, o0, h0);
      }
    }

    method DelList(items: seq<Id>, ghost bound: nat, ghost rank: Id -> nat, ghost open: set<Id>, ghost o0: map<Id, Cell>, ghost h0: Held)
      requires Inv(open) && Ranked(held, rank) && multiset(items) <= owners
      requires forall c :: c in multiset(items) ==> rank(c) < bound
      requires forall o :: o in open ==> bound <= rank(o)
      requires Shrunk(o0, h0, objs, held, dying, rank, bound)
      modifies this
      ensures Inv(open) && owners == old(owners) - multiset(items) && dying == old(dying) && Ranked(held, rank)
      ensures Shrunk(o0, h0, objs, held, dying, rank, bound)
      decreases bound, 1
    {
      hide *;
      ghost var rest := owners - multiset(items);
      assert items[0..] == items;
      var i := 0;
      while i < |items|
        invariant 0 <= i <= |items| && Inv(open) && Ranked(held, rank)
        invariant owners == rest + multiset(items[i..]) && dying == old(dying)
        invariant Shrunk(o0, h0, objs, held, dying, rank, bound)
      {
        TakeItem(rest, items, i);
        Release(items[i], bound, rank, open, o0, h0);
        i := i + 1;
      }
    }

    method DelHash(entries: seq<Entry>, ghost bound: nat, ghost rank: Id -> nat, ghost open: set<Id>, ghost o0: map<Id, Cell>, ghost h0: Held)
      requires Inv(open) && Ranked(held, rank) && EntryRefs(entries) <= owners
      requires forall c :: c in EntryRefs(entries) ==> rank(c) < bound
      requires forall o :: o in open ==> bound <= rank(o)
      requires Shrunk(o0, h0, objs, held, dying, rank, bound)
      modifies this
      ensures Inv(open) && owners == old(owners) - EntryRefs(entries) && dying == old(dying) && Ranked(held, rank)
      ensures Shrunk(o0, h0, objs, held, dying, rank, bound)
      decreases bound, 1
    {
      hide *;
      ghost var rest := owners - EntryRefs(entries);
      assert entries[0..] == entries;
      EntryRefsStep(entries, |entries|);
      var i := 0;
      while i < |entries|
        invariant 0 <= i <= |entries| && Inv(open) && Ranked(held, rank)
        invariant owners == rest + EntryRefs(entries[i..]) && dying == old(dying)
        invariant forall c :: c in EntryRefs(entries[i..]) ==> rank(c) < bound
        invariant Shrunk(o0, h0, objs, held, dying, rank, bound)
      {
        var e := entries[i];
        EntryRefsStep(entries, i);
        TakeTwo(rest, e.key, e.value, EntryRefs(entries[i + 1..]));
        EntryKeys(entries, i);
        Release(e.key, bound, rank, open, o0, h0);
        Release(e.value, bound, rank, open, o0, h0);
        i := i + 1;
      }
      EntryRefsStep(entries, i);
    }

    /** `Delete` on a reference that object `x` held. */
    method Release(c: Id, ghost bound: nat, ghost rank: Id -> nat, ghost open: set<Id>, ghost o0: map<Id, Cell>, ghost h0: Held)
      requires Inv(open) && c in owners && Ranked(held, rank) && rank(c) < bound
      requires forall o :: o in open ==> bound <= rank(o)
      requires Shrunk(o0, h0, objs, held, dying, rank, bound)
      modifies this
      ensures Inv(open) && owners == old(owners) - multiset{c} && dying == old(dying) && Ranked(held, rank)
      ensures Shrunk(o0, h0, objs, held, dying, rank, bound)
      decreases bound, 0
    {
      hide Balanced, Shrunk, Ranked, Refs, BodyRefs, MetaRefs, EntryRefs, Total;
      ghost var o1, h1 := objs, held;
      HeldInObjs(objs, dying, held, owners, open);
      Delete(c, rank, open);
      ShrunkRanked(o1, h1, objs, held, dying, rank, rank(c) + 1);
      ShrunkTransitive(o0, h0, o1, h1, objs, held, dying, rank, bound, rank(c) + 1);
    }

    /** DohObjFree: the slot is given back, then the meta object is released. */
    method ObjFree(x: Id, ghost rank: Id -> nat, ghost open: set<Id>, ghost o0: map<Id, Cell>, ghost h0: Held)
      requires Inv(open) && x in objs && x in dying && Ranked(held, rank) && MetaRefs(objs[x].meta) <= owners
      requires forall c :: c in MetaRefs(objs[x].meta) ==> rank(c) < rank(x)
      requires forall o :: o in open ==> rank(x) < rank(o)
      requires Shrunk(o0, h0, objs, held, dying - {x}, rank, rank(x))
      modifies this
      ensures Inv(open) && owners == old(owners) - old(MetaRefs(objs[x].meta)) && dying == old(dying) - {x}
      ensures Shrunk(o0, h0, objs, held, dying, rank, rank(x)) && Ranked(held, rank)
      decreases rank(x), 1
    {
      hide Balanced, Shrunk, Ranked, Refs, BodyRefs, MetaRefs, EntryRefs, Total;
      var meta := objs[x].meta;
      MetaRefsOf(meta);
      FreeKeeps(objs, dying, held, owners, open, x);
      FreeShrinks(o0, h0, objs, held, dying, x, rank, rank(x));
      objs := objs - {x};
      dying := dying - {x};
      if meta.Some? {
        Release(meta.value, rank(x), rank, open, o0, h0);
      }
    }
  }
}
