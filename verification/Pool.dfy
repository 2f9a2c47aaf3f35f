/** The allocator of DOH objects (Source/DOH/memory.c): pools of slots, handed out in order, and a free list threaded
    through the `data` field of the slots given back.

    Pointers are byte addresses, null is 0.  Where malloc puts a new pool is the caller's to say (`room`).
 */
module PoolMemory {
  import opened Wrappers

  /** sizeof(DohBase) with 64-bit pointers */
  const SLOT: nat := 32

  datatype Base = Base(kind: nat, data: nat, meta: nat, refcount: nat, intern: bool)

  datatype Pool = Pool(pbeg: nat, len: nat, current: nat)

  function SlotAt(p: Pool, i: nat): nat {
    p.pbeg + SLOT * i
  }

  function End(p: Pool): nat {
    p.pbeg + SLOT * p.len
  }

  ghost predicate Apart(p: Pool, q: Pool) {
    End(p) <= q.pbeg || End(q) <= p.pbeg
  }

  /** The pools, newest first: they do not overlap, and only the newest has slots that were never used. */
  ghost predicate PoolsOk(pools: seq<Pool>) {
    && pools != []
    && (forall k :: 0 <= k < |pools| ==> 0 < pools[k].pbeg && pools[k].current <= pools[k].len)
    && (forall k :: 0 < k < |pools| ==> pools[k].current == pools[k].len)
    && (forall k, l :: 0 <= k < l < |pools| ==> Apart(pools[k], pools[l]))
  }

  /** The slots that were handed out at least once. */
  ghost function Handed(pools: seq<Pool>): set<nat> {
    set k, i | 0 <= k < |pools| && 0 <= i < pools[k].current :: SlotAt(pools[k], i)
  }

  function First(free: seq<nat>): nat {
    if free == [] then 0 else free[0]
  }

  /** The list threaded through the free slots. */
  ghost predicate Chain(mem: map<nat, Base>, free: seq<nat>) {
    forall i :: 0 <= i < |free| ==> free[i] in mem && mem[free[i]].data == First(free[i + 1..])
  }

  ghost predicate Sound(mem: map<nat, Base>, pools: seq<Pool>, free: seq<nat>, live: set<nat>) {
    && PoolsOk(pools)
    && NoDuplicates(free)
    && Chain(mem, free)
    && (forall a :: a in free ==> a !in live)
    && (forall a :: a in Handed(pools) <==> a in live || a in free)
    && (forall k, i :: 0 <= k < |pools| && 0 <= i < pools[k].len ==> SlotAt(pools[k], i) in mem)
  }

  lemma SlotsDiffer(pools: seq<Pool>, k: nat, i: nat, l: nat, j: nat)
    requires PoolsOk(pools) && k < |pools| && l < |pools| && i < pools[k].len && j < pools[l].len
    ensures SlotAt(pools[k], i) == SlotAt(pools[l], j) ==> k == l && i == j
  {
    if k < l { assert Apart(pools[k], pools[l]); }
    if l < k { assert Apart(pools[l], pools[k]); }
  }

  /** A slot below the mark of its pool has been handed out; one beyond has not. */
  lemma HandedMeans(pools: seq<Pool>, k: nat, i: nat)
    requires PoolsOk(pools) && k < |pools| && i < pools[k].len
    ensures SlotAt(pools[k], i) in Handed(pools) <==> i < pools[k].current
  {
    var a := SlotAt(pools[k], i);
    if a in Handed(pools) {
      var l, j :| 0 <= l < |pools| && 0 <= j < pools[l].current && a == SlotAt(pools[l], j);
      SlotsDiffer(pools, k, i, l, j);
    }
  }

  /** Each slot of each pool is exactly one of live, free and never used; the never used ones are in the newest pool. */
  lemma Partition(mem: map<nat, Base>, pools: seq<Pool>, free: seq<nat>, live: set<nat>, k: nat, i: nat)
    requires Sound(mem, pools, free, live) && k < |pools| && i < pools[k].len
    ensures var a := SlotAt(pools[k], i);
            && (a in live || a in free || i >= pools[k].current)
            && !(a in live && a in free) && !(a in live && i >= pools[k].current) && !(a in free && i >= pools[k].current)
            && (i >= pools[k].current ==> k == 0)
  {
    HandedMeans(pools, k, i);
  }

  /** What DohCheck answers: whether an address lies in a pool, at a slot or inside one. */
  ghost predicate InPool(pools: seq<Pool>, a: nat) {
    exists k :: 0 <= k < |pools| && pools[k].pbeg <= a < End(pools[k])
  }

  /** DohCheck is no liveness test: it holds exactly of the addresses at or inside a slot of some pool. */
  lemma CheckedAddresses(pools: seq<Pool>, a: nat)
    ensures InPool(pools, a) <==>
              exists k, i :: 0 <= k < |pools| && 0 <= i < pools[k].len && SlotAt(pools[k], i) <= a < SlotAt(pools[k], i) + SLOT
  {
    if InPool(pools, a) {
      var k :| 0 <= k < |pools| && pools[k].pbeg <= a < End(pools[k]);
      var i := (a - pools[k].pbeg) / SLOT;
      assert SlotAt(pools[k], i) <= a < SlotAt(pools[k], i) + SLOT;
    }
    if k, i :| 0 <= k < |pools| && 0 <= i < pools[k].len && SlotAt(pools[k], i) <= a < SlotAt(pools[k], i) + SLOT {
      assert pools[k].pbeg <= a < End(pools[k]);
    }
  }

  /** Every slot passes the test, live, free or never used; and every live or free object is such a slot. */
  lemma CheckedSlots(mem: map<nat, Base>, pools: seq<Pool>, free: seq<nat>, live: set<nat>)
    requires Sound(mem, pools, free, live)
    ensures forall k, i :: 0 <= k < |pools| && 0 <= i < pools[k].len ==> InPool(pools, SlotAt(pools[k], i))
    ensures forall a :: a in live || a in free ==> InPool(pools, a)
  {
    forall k, i | 0 <= k < |pools| && 0 <= i < pools[k].len ensures InPool(pools, SlotAt(pools[k], i)) {
      assert pools[k].pbeg <= SlotAt(pools[k], i) < End(pools[k]);
    }
    forall a | a in live || a in free ensures InPool(pools, a) {
      assert a in Handed(pools);
      var k, i :| 0 <= k < |pools| && 0 <= i < pools[k].current && a == SlotAt(pools[k], i);
    }
  }

  // ----- what each step does to the whole

  /** The malloc contract: a range that overlaps no pool. */
  ghost predicate Room(pools: seq<Pool>, room: nat, size: nat) {
    0 < room && forall k :: 0 <= k < |pools| ==> Apart(Pool(room, size, 0), pools[k])
  }

  ghost predicate Covers(mem: map<nat, Base>, p: Pool) {
    forall i :: 0 <= i < p.len ==> SlotAt(p, i) in mem
  }

  lemma PoolAdded(mem: map<nat, Base>, mem': map<nat, Base>, pools: seq<Pool>, free: seq<nat>, live: set<nat>, p: Pool)
    requires Sound(mem, pools, free, live) && pools[0].current == pools[0].len
    requires Room(pools, p.pbeg, p.len) && p.current == 0 && Covers(mem', p)
    requires forall a :: a in mem && !(p.pbeg <= a < End(p)) ==> a in mem' && mem'[a] == mem[a]
    ensures Sound(mem', [p] + pools, free, live)
  {
    var pools' := [p] + pools;
    assert forall k :: 0 < k < |pools'| ==> pools'[k] == pools[k - 1];
    assert forall k, l :: 0 <= k < l < |pools'| ==> Apart(pools'[k], pools'[l]) by {
      forall k, l | 0 <= k < l < |pools'| ensures Apart(pools'[k], pools'[l]) {
        if k == 0 { assert Apart(Pool(p.pbeg, p.len, 0), pools[l - 1]); }
      }
    }
    forall a ensures a in Handed(pools') <==> a in Handed(pools) {
      if a in Handed(pools) {
        var k, i :| 0 <= k < |pools| && 0 <= i < pools[k].current && a == SlotAt(pools[k], i);
        assert pools'[k + 1] == pools[k];
      }
    }
    forall k, i | 0 <= k < |pools| && 0 <= i < pools[k].len ensures SlotAt(pools[k], i) in mem' && Outside(p, SlotAt(pools[k], i)) {
      assert Apart(Pool(p.pbeg, p.len, 0), pools[k]);
    }
    forall i | 0 <= i < |free| ensures free[i] in mem' && mem'[free[i]] == mem[free[i]] {
      assert free[i] in Handed(pools);
      var k, j :| 0 <= k < |pools| && 0 <= j < pools[k].current && free[i] == SlotAt(pools[k], j);
      assert Outside(p, SlotAt(pools[k], j));
    }
    assert Chain(mem', free);
  }

  ghost predicate Outside(p: Pool, a: nat) {
    !(p.pbeg <= a < End(p))
  }

  function Advanced(p: Pool): Pool {
    p.(current := p.current + 1)
  }

  lemma AdvancedOk(pools: seq<Pool>)
    requires PoolsOk(pools) && pools[0].current < pools[0].len
    ensures PoolsOk(pools[0 := Advanced(pools[0])])
  {
    hide SlotAt, Handed;
    var pools' := pools[0 := Advanced(pools[0])];
    forall k, l | 0 <= k < l < |pools'| ensures Apart(pools'[k], pools'[l]) {
      assert Apart(pools[k], pools[l]);
    }
  }

  /** Advancing the mark of the newest pool hands out one slot more, */
  lemma HandedKept(pools: seq<Pool>, x: nat)
    requires pools != [] && (x in Handed(pools) || x == SlotAt(pools[0], pools[0].current))
    ensures x in Handed(pools[0 := Advanced(pools[0])])
  {
    hide SlotAt;
    var pools' := pools[0 := Advanced(pools[0])];
    SameSlots(pools[0], Advanced(pools[0]));
    if x in Handed(pools) {
      var k, i :| 0 <= k < |pools| && 0 <= i < pools[k].current && x == SlotAt(pools[k], i);
      assert x == SlotAt(pools'[k], i);
    } else {
      assert x == SlotAt(pools'[0], pools[0].current);
    }
  }

  /** and only that one. */
  lemma HandedOnly(pools: seq<Pool>, x: nat)
    requires pools != [] && x in Handed(pools[0 := Advanced(pools[0])])
    ensures x in Handed(pools) || x == SlotAt(pools[0], pools[0].current)
  {
    hide SlotAt;
    var pools' := pools[0 := Advanced(pools[0])];
    SameSlots(pools[0], Advanced(pools[0]));
    var k, i :| 0 <= k < |pools'| && 0 <= i < pools'[k].current && x == SlotAt(pools'[k], i);
    assert x == SlotAt(pools[k], i);
  }

  lemma HandedGrows(pools: seq<Pool>)
    requires PoolsOk(pools) && pools[0].current < pools[0].len
    ensures var pools' := pools[0 := Advanced(pools[0])];
            && PoolsOk(pools')
            && forall x :: x in Handed(pools') <==> x in Handed(pools) || x == SlotAt(pools[0], pools[0].current)
  {
    hide SlotAt, Handed;
    AdvancedOk(pools);
    var pools' := pools[0 := Advanced(pools[0])];
    forall x ensures x in Handed(pools') <==> x in Handed(pools) || x == SlotAt(pools[0], pools[0].current) {
      if x in Handed(pools') { HandedOnly(pools, x); }
      if x in Handed(pools) || x == SlotAt(pools[0], pools[0].current) { HandedKept(pools, x); }
    }
  }

  lemma SameSlots(p: Pool, q: Pool)
    requires q == p.(current := q.current)
    ensures End(p) == End(q) && forall i: nat :: SlotAt(p, i) == SlotAt(q, i)
  {
  }

  lemma SlotTaken(mem: map<nat, Base>, pools: seq<Pool>, free: seq<nat>, live: set<nat>, b: Base)
    requires Sound(mem, pools, free, live) && pools[0].current < pools[0].len
    ensures var p := pools[0];
            var a := SlotAt(p, p.current);
            && a !in live && a !in free && a != 0
            && Sound(mem[a := b], pools[0 := Advanced(p)], free, live + {a})
  {
    hide Handed, SlotAt;
    var p := pools[0];
    var a := SlotAt(p, p.current);
    var q := Advanced(p);
    var pools' := pools[0 := q];
    HandedMeans(pools, 0, p.current);
    HandedGrows(pools);
    SameSlots(p, q);
    forall k, i | 0 <= k < |pools'| && 0 <= i < pools'[k].len ensures SlotAt(pools'[k], i) in mem[a := b] {
      assert SlotAt(pools[k], i) in mem;
    }
    assert Chain(mem[a := b], free);
    SlotNotNull(p, p.current);
  }

  lemma SlotNotNull(p: Pool, i: nat)
    requires 0 < p.pbeg
    ensures SlotAt(p, i) != 0
  {
  }

  lemma FreeTaken(mem: map<nat, Base>, pools: seq<Pool>, free: seq<nat>, live: set<nat>, b: Base)
    requires Sound(mem, pools, free, live) && free != []
    ensures free[0] !in live && free[0] in mem && mem[free[0]].data == First(free[1..])
    ensures Sound(mem[free[0] := b], pools, free[1..], live + {free[0]})
  {
    var rest := free[1..];
    assert forall x :: x in free <==> x == free[0] || x in rest;
    forall i | 0 <= i < |rest| ensures rest[i] in mem[free[0] := b] && mem[free[0] := b][rest[i]].data == First(rest[i + 1..]) {
      assert rest[i] == free[i + 1] && rest[i + 1..] == free[i + 2..];
      assert free[i + 1] != free[0];
    }
    assert Chain(mem[free[0] := b], rest);
  }

  lemma SlotFreed(mem: map<nat, Base>, pools: seq<Pool>, free: seq<nat>, live: set<nat>, a: nat, b: Base)
    requires Sound(mem, pools, free, live) && a in live && b.data == First(free)
    ensures Sound(mem[a := b], pools, [a] + free, live - {a})
  {
    var free' := [a] + free;
    forall i | 0 <= i < |free'| ensures free'[i] in mem[a := b] && mem[a := b][free'[i]].data == First(free'[i + 1..]) {
      if i == 0 {
        assert free'[1..] == free;
      } else {
        assert free'[i] == free[i - 1] && free'[i + 1..] == free[i..];
        assert free[i - 1] in free;
      }
    }
    assert Chain(mem[a := b], free');
  }

  // ----- the code

  /** A pool as memset leaves it. */
  function ZeroedPool(room: nat, size: nat): (m: map<nat, Base>)
    ensures forall a :: a in m <==> room <= a < room + SLOT * size
    ensures forall a :: a in m ==> m[a] == Base(0, 0, 0, 0, false)
  {
    map a | room <= a < room + SLOT * size && Within(a, room, size) :: Base(0, 0, 0, 0, false)
  }

  predicate Within(a: nat, room: nat, size: nat) {
    room <= a < room + SLOT * size
  }

  class Allocator {
    var mem: map<nat, Base>
    var freeList: nat
    var pools: seq<Pool>
    const poolSize: nat
    ghost var free: seq<nat>
    ghost var live: set<nat>

    ghost predicate Valid()
      reads this
    {
      Sound(mem, pools, free, live) && freeList == First(free) && 0 < poolSize && 0 !in live && 0 !in free
    }

    /** The first call of InitPools, up to its first pool. */
    constructor (poolSize: nat, room: nat)
      requires 0 < poolSize && 0 < room
      ensures Valid() && live == {} && free == [] && this.poolSize == poolSize
      ensures pools == [Pool(room, poolSize, 0)]
    {
      this.poolSize := poolSize;
      freeList := 0;
      free, live := [], {};
      pools := [Pool(room, poolSize, 0)];
      mem := ZeroedPool(room, poolSize);
    }

    /** CreatePool: the new pool is zeroed and becomes the head. */
    method CreatePool(room: nat)
      requires Valid() && pools[0].current == pools[0].len && Room(pools, room, poolSize)
      modifies this`mem, this`pools
      ensures Valid() && pools == [Pool(room, poolSize, 0)] + old(pools)
      ensures forall a :: a in live ==> a in old(mem) && a in mem && mem[a] == old(mem)[a]
    {
      hide Sound, Room;
      var p := Pool(room, poolSize, 0);
      var zeroed := ZeroedPool(room, poolSize);
      PoolAdded(mem, mem + zeroed, pools, free, live, p);
      LiveOutside(mem, pools, free, live, p);
      mem := mem + zeroed;
      pools := [p] + pools;
    }

    /** DohObjMalloc: never a slot in use; the other objects are not touched. */
    method DohObjMalloc(kind: nat, data: nat, room: nat) returns (obj: nat)
      requires Valid() && Room(pools, room, poolSize)
      modifies this
      ensures Valid() && obj !in old(live) && live == old(live) + {obj} && obj != 0
      ensures obj in mem && mem[obj] == Base(kind, data, 0, 1, false)
      ensures forall a :: a in old(live) ==> a in old(mem) && a in mem && mem[a] == old(mem)[a]
      ensures old(free) != [] ==> obj == old(free)[0] && free == old(free)[1..] && pools == old(pools)
      ensures old(free) == [] ==>
                && free == [] && 0 < pools[0].current && obj == SlotAt(pools[0], pools[0].current - 1)
                && (old(pools)[0].current < old(pools)[0].len ==> |pools| == |old(pools)|)
    {
      hide Sound, Room;
      var b := Base(kind, data, 0, 1, false);
      LiveInMem(mem, pools, free, live);
      if freeList != 0 {
        obj := freeList;
        FreeTaken(mem, pools, free, live, b);
        freeList := mem[obj].data;
        free := free[1..];
      } else {
        while pools[0].current == pools[0].len
          invariant pools != [] && Valid() && free == old(free) && live == old(live) && freeList == old(freeList)
          invariant pools[0].current == pools[0].len ==> pools == old(pools)
          invariant pools == old(pools) || old(pools)[0].current == old(pools)[0].len
          invariant forall a :: a in live ==> a in old(mem) && a in mem && mem[a] == old(mem)[a]
          decreases if pools[0].current == pools[0].len then 1 else 0
        {
          CreatePool(room);
        }
        HeadBounds(mem, pools, free, live);
        SlotTaken(mem, pools, free, live, b);
        obj := SlotAt(pools[0], pools[0].current);
        pools := pools[0 := pools[0].(current := pools[0].current + 1)];
      }
      live := live + {obj};
      mem := mem[obj := b];
    }

    /** DohObjFree: interned objects stay; another slot goes to the head of the free list.  What comes back is the meta
        object, whose reference is the caller's to drop. */
    method DohObjFree(ptr: nat) returns (meta: nat)
      requires Valid() && ptr in live && ptr in mem
      modifies this`mem, this`freeList, this`free, this`live
      ensures Valid()
      ensures old(mem)[ptr].intern ==> mem == old(mem) && live == old(live) && free == old(free) && meta == 0
      ensures !old(mem)[ptr].intern ==>
                && live == old(live) - {ptr} && free == [ptr] + old(free) && meta == old(mem)[ptr].meta
                && mem == old(mem)[ptr := old(mem)[ptr].(data := old(freeList), meta := 0, kind := 0)]
    {
      hide Sound;
      var b := mem[ptr];
      if b.intern { return 0; }
      meta := b.meta;
      b := b.(data := freeList, meta := 0, kind := 0);
      SlotFreed(mem, pools, free, live, ptr, b);
      mem := mem[ptr := b];
      freeList := ptr;
      free := [ptr] + free;
      live := live - {ptr};
    }

    /** DohCheck */
    method DohCheck(ptr: nat) returns (r: bool)
      requires Valid()
      ensures r <==> InPool(pools, ptr)
    {
      hide Sound;
      var k := 0;
      while k < |pools|
        invariant 0 <= k <= |pools| && forall l :: 0 <= l < k ==> !(pools[l].pbeg <= ptr < End(pools[l]))
      {
        if pools[k].pbeg <= ptr && ptr < End(pools[k]) { return true; }
        k := k + 1;
      }
      r := false;
    }
  }

  lemma HeadBounds(mem: map<nat, Base>, pools: seq<Pool>, free: seq<nat>, live: set<nat>)
    requires Sound(mem, pools, free, live)
    ensures pools != [] && pools[0].current <= pools[0].len
  {
  }

  lemma LiveInMem(mem: map<nat, Base>, pools: seq<Pool>, free: seq<nat>, live: set<nat>)
    requires Sound(mem, pools, free, live)
    ensures pools != [] && forall a :: a in live ==> a in mem
  {
    forall a | a in live ensures a in mem {
      assert a in Handed(pools);
      var k, i :| 0 <= k < |pools| && 0 <= i < pools[k].current && a == SlotAt(pools[k], i);
      assert SlotAt(pools[k], i) in mem;
    }
  }

  lemma LiveOutside(mem: map<nat, Base>, pools: seq<Pool>, free: seq<nat>, live: set<nat>, p: Pool)
    requires Sound(mem, pools, free, live) && Room(pools, p.pbeg, p.len) && p.current == 0
    ensures forall a :: a in live ==> a in mem && Outside(p, a)
  {
    forall a | a in live ensures a in mem && Outside(p, a) {
      assert a in Handed(pools);
      var k, i :| 0 <= k < |pools| && 0 <= i < pools[k].current && a == SlotAt(pools[k], i);
      assert SlotAt(pools[k], i) in mem;
      assert Apart(Pool(p.pbeg, p.len, 0), pools[k]);
    }
  }
}
