/** The chained hash table of Source/DOH/hash.c, as linked nodes in a bucket array, proved to be a finite map.

    Keys are the contents of string objects: `Cmp` and `String_equal` compare contents and `Hashval` is a function
    of contents, so equal keys share a bucket.
 */
module HashTable {
  import opened Wrappers
  import opened StringHash
  import TableSize

  /** An object, by identity. */
  type DOH = nat

  const HASH_INIT_SIZE := 7

  class HashNode {
    const key: string
    var obj: DOH
    var next: HashNode?

    constructor (k: string, obj: DOH)
      ensures this.key == k && this.obj == obj && next == null
    {
      this.key, this.obj, next := k, obj, null;
    }
  }

  // ----- chains as sequences

  function Bucket(k: string, size: nat): (b: nat)
    requires 0 < size
    ensures b < size
  {
    HashOf(k) % size
  }

  function Head(c: seq<HashNode>): HashNode? {
    if c == [] then null else c[0]
  }

  function NextOf(c: seq<HashNode>, j: nat): HashNode?
    requires j < |c|
  {
    if j + 1 < |c| then c[j + 1] else null
  }

  type Links = map<HashNode, HashNode?>

  ghost function NextMap(pool: set<HashNode>): Links
    reads pool
  {
    map n | n in pool :: n.next
  }

  /** The links from `head` spell out the chain `c` of bucket `b`. */
  ghost predicate ChainOk(head: HashNode?, c: seq<HashNode>, b: nat, size: nat, links: Links)
    requires 0 < size
  {
    && head == Head(c)
    && NoDuplicates(c)
    && (forall j :: 0 <= j < |c| ==> c[j] in links && Bucket(c[j].key, size) == b && links[c[j]] == NextOf(c, j))
  }

  ghost predicate WellLinked(heads: seq<HashNode?>, chains: seq<seq<HashNode>>, links: Links) {
    && 0 < |heads| == |chains|
    && (forall b :: 0 <= b < |chains| ==> ChainOk(heads[b], chains[b], b, |chains|, links))
  }

  /** A chain whose own links are the same in both is a chain in both. */
  lemma ChainFrame(head: HashNode?, c: seq<HashNode>, b: nat, size: nat, links: Links, links': Links)
    requires 0 < size && ChainOk(head, c, b, size, links)
    requires forall n :: n in links && Bucket(n.key, size) == b ==> n in links' && links'[n] == links[n]
    ensures ChainOk(head, c, b, size, links')
  {
    hide Bucket, HashOf;
  }

  /** `heads` and `links` after the assignment of `SetLink`. */
  ghost function SetHead(heads: seq<HashNode?>, hv: nat, prev: HashNode?, to: HashNode?): seq<HashNode?>
    requires hv < |heads|
  {
    if prev == null then heads[hv := to] else heads
  }

  ghost function SetNext(links: Links, prev: HashNode?, to: HashNode?): Links {
    if prev == null then links else links[prev := to]
  }

  /** A node linked behind the last one of its chain, or into its empty bucket. */
  lemma Appended(heads: seq<HashNode?>, chains: seq<seq<HashNode>>, links: Links, n: HashNode, prev: HashNode?)
    requires WellLinked(heads, chains, links) && n !in links
    requires var c := chains[Bucket(n.key, |chains|)]; prev == if c == [] then null else c[|c| - 1]
    ensures var hv := Bucket(n.key, |chains|);
            WellLinked(SetHead(heads, hv, prev, n), chains[hv := chains[hv] + [n]], SetNext(links, prev, n)[n := null])
  {
    hide Bucket, HashOf, ChainOk, NextOf;
    var hv := Bucket(n.key, |chains|);
    var c := chains[hv];
    var heads', links' := SetHead(heads, hv, prev, n), SetNext(links, prev, n)[n := null];
    ChainKeys(heads[hv], c, hv, |chains|, links);
    forall b | 0 <= b < |chains| && b != hv ensures ChainOk(heads'[b], chains[b], b, |chains|, links') {
      ChainFrame(heads[b], chains[b], b, |chains|, links, links');
    }
    ChainAppended(heads[hv], c, hv, |chains|, links, n);
  }

  lemma ChainKeys(head: HashNode?, c: seq<HashNode>, b: nat, size: nat, links: Links)
    requires 0 < size && ChainOk(head, c, b, size, links)
    ensures head == Head(c) && NoDuplicates(c)
    ensures forall j :: 0 <= j < |c| ==> c[j] in links && Bucket(c[j].key, size) == b && links[c[j]] == NextOf(c, j)
  {
  }

  lemma ChainAppended(head: HashNode?, c: seq<HashNode>, b: nat, size: nat, links: Links, n: HashNode)
    requires 0 < size && ChainOk(head, c, b, size, links) && n !in links && Bucket(n.key, size) == b
    ensures if c == [] then ChainOk(n, c + [n], b, size, links[n := null])
            else ChainOk(head, c + [n], b, size, links[c[|c| - 1] := n][n := null])
  {
    hide Bucket, HashOf;
  }

  /** The node at place `p` of its chain unlinked. */
  lemma Unlinked(heads: seq<HashNode?>, chains: seq<seq<HashNode>>, links: Links, hv: nat, p: nat, prev: HashNode?)
    requires WellLinked(heads, chains, links) && hv < |chains| && p < |chains[hv]|
    requires prev == if p == 0 then null else chains[hv][p - 1]
    ensures var c := chains[hv];
            var to := NextOf(c, p);
            WellLinked(SetHead(heads, hv, prev, to), chains[hv := c[..p] + c[p + 1..]], SetNext(links, prev, to) - {c[p]})
  {
    hide Bucket, HashOf, ChainOk;
    var c := chains[hv];
    var heads', links' := SetHead(heads, hv, prev, NextOf(c, p)), SetNext(links, prev, NextOf(c, p)) - {c[p]};
    ChainKeys(heads[hv], c, hv, |chains|, links);
    forall b | 0 <= b < |chains| && b != hv ensures ChainOk(heads'[b], chains[b], b, |chains|, links') {
      ChainFrame(heads[b], chains[b], b, |chains|, links, links');
    }
    ChainUnlinked(heads[hv], c, p, hv, |chains|, links);
  }

  lemma ChainUnlinked(head: HashNode?, c: seq<HashNode>, p: nat, b: nat, size: nat, links: Links)
    requires 0 < size && ChainOk(head, c, b, size, links) && p < |c|
    ensures var links' := if p == 0 then links else links[c[p - 1] := NextOf(c, p)];
            ChainOk(if p == 0 then NextOf(c, p) else head, c[..p] + c[p + 1..], b, size, links' - {c[p]})
  {
    hide Bucket, HashOf;
    var d := c[..p] + c[p + 1..];
    var links' := (if p == 0 then links else links[c[p - 1] := NextOf(c, p)]) - {c[p]};
    forall j | 0 <= j < |d|
      ensures d[j] in links' && Bucket(d[j].key, size) == b && links'[d[j]] == NextOf(d, j)
    {
      assert d[j] == if j < p then c[j] else c[j + 1];
    }
  }

  /** Every node of the pool is on the chain of its bucket. */
  ghost predicate Covers(chains: seq<seq<HashNode>>, pool: set<HashNode>)
    requires 0 < |chains|
  {
    forall n :: n in pool ==> n in chains[Bucket(n.key, |chains|)]
  }

  lemma CoversAppended(chains: seq<seq<HashNode>>, pool: set<HashNode>, n: HashNode)
    requires 0 < |chains| && Covers(chains, pool)
    ensures var hv := Bucket(n.key, |chains|); Covers(chains[hv := chains[hv] + [n]], pool + {n})
  {
    hide Bucket, HashOf;
  }

  lemma CoversUnlinked(chains: seq<seq<HashNode>>, pool: set<HashNode>, hv: nat, p: nat)
    requires hv < |chains| && p < |chains[hv]| && Covers(chains, pool)
    ensures var c := chains[hv]; Covers(chains[hv := c[..p] + c[p + 1..]], pool - {c[p]})
  {
    hide Bucket, HashOf;
    var c := chains[hv];
    forall n | n in c && n != c[p] ensures n in c[..p] + c[p + 1..] {
      var j :| 0 <= j < |c| && c[j] == n;
      assert n == if j < p then (c[..p] + c[p + 1..])[j] else (c[..p] + c[p + 1..])[j - 1];
    }
  }

  /** `prev->next = n`, or the bucket itself when there is no predecessor: the links as a whole afterwards. */
  method SetLink(table: array<HashNode?>, hv: nat, prev: HashNode?, to: HashNode?, ghost pool: set<HashNode>)
    requires hv < table.Length && (prev != null ==> prev in pool)
    modifies table, if prev == null then {} else {prev}
    ensures table[..] == SetHead(old(table[..]), hv, prev, to)
    ensures NextMap(pool) == SetNext(old(NextMap(pool)), prev, to)
    ensures forall m :: m in pool ==> m.obj == old(m.obj)
  {
    if prev != null {
      prev.next := to;
    } else {
      table[hv] := to;
    }
  }

  /** `index` names every node of the pool by its key, and only those. */
  ghost predicate Indexed(index: map<string, HashNode>, pool: set<HashNode>) {
    && (forall k :: k in index ==> index[k] in pool && index[k].key == k)
    && (forall n :: n in pool ==> n.key in index && index[n.key] == n)
  }

  /** The ghost view of a table: the chains, bucket by bucket, the node of each key, and all nodes. */
  datatype View = View(chains: seq<seq<HashNode>>, index: map<string, HashNode>, nodes: set<HashNode>)

  ghost predicate Shape(heads: seq<HashNode?>, nitems: int, v: View, links: Links) {
    && WellLinked(heads, v.chains, links)
    && links.Keys == v.nodes
    && Covers(v.chains, v.nodes)
    && Indexed(v.index, v.nodes)
    && nitems == |v.index|
  }

  ghost function EmptyView(size: nat): View {
    View(seq(size, _ => []), map[], {})
  }

  lemma EmptyShape(size: nat)
    requires 0 < size
    ensures NextMap({}) == map[] && Shape(seq(size, _ => null), 0, EmptyView(size), map[])
  {
    hide Bucket, HashOf, NextOf;
  }

  lemma ShapeBucket(heads: seq<HashNode?>, nitems: int, v: View, links: Links, b: nat)
    requires Shape(heads, nitems, v, links) && b < |v.chains|
    ensures |heads| == |v.chains| && heads[b] == Head(v.chains[b])
  {
    assert ChainOk(heads[b], v.chains[b], b, |v.chains|, links);
  }

  lemma ShapeNode(heads: seq<HashNode?>, nitems: int, v: View, links: Links, b: nat, j: nat)
    requires Shape(heads, nitems, v, links) && b < |v.chains| && j < |v.chains[b]|
    ensures var n := v.chains[b][j];
            && n in v.nodes && n.key in v.index && v.index[n.key] == n && Bucket(n.key, |v.chains|) == b
            && links[n] == NextOf(v.chains[b], j)
  {
    hide Bucket, HashOf, NextOf;
    assert ChainOk(heads[b], v.chains[b], b, |v.chains|, links);
  }

  lemma ShapeKey(heads: seq<HashNode?>, nitems: int, v: View, links: Links, k: string)
    requires Shape(heads, nitems, v, links) && k in v.index
    ensures v.index[k] in v.chains[Bucket(k, |v.chains|)] && v.index[k].key == k
  {
    hide Bucket, HashOf, NextOf, WellLinked;
  }

  lemma IndexedAdded(index: map<string, HashNode>, pool: set<HashNode>, n: HashNode)
    requires Indexed(index, pool) && n.key !in index && n !in pool
    ensures Indexed(index[n.key := n], pool + {n}) && |index[n.key := n]| == |index| + 1
  {
  }

  lemma IndexedRemoved(index: map<string, HashNode>, pool: set<HashNode>, k: string)
    requires Indexed(index, pool) && k in index
    ensures Indexed(index - {k}, pool - {index[k]}) && |index - {k}| == |index| - 1
  {
    var rest := index - {k};
    assert index == rest[k := index[k]];
  }

  ghost function Added(v: View, n: HashNode): View
    requires 0 < |v.chains|
  {
    var hv := Bucket(n.key, |v.chains|);
    View(v.chains[hv := v.chains[hv] + [n]], v.index[n.key := n], v.nodes + {n})
  }

  lemma ShapeAdded(heads: seq<HashNode?>, nitems: int, v: View, links: Links, n: HashNode, prev: HashNode?)
    requires Shape(heads, nitems, v, links) && n !in v.nodes && n.key !in v.index
    requires var c := v.chains[Bucket(n.key, |v.chains|)]; prev == if c == [] then null else c[|c| - 1]
    ensures prev != null ==> prev in v.nodes
    ensures Shape(SetHead(heads, Bucket(n.key, |v.chains|), prev, n), nitems + 1, Added(v, n), SetNext(links, prev, n)[n := null])
  {
    hide Bucket, HashOf, NextOf, Covers, ChainOk, Indexed;
    Appended(heads, v.chains, links, n, prev);
    CoversAppended(v.chains, v.nodes, n);
    IndexedAdded(v.index, v.nodes, n);
    var b := Bucket(n.key, |v.chains|);
    if prev != null { ShapeNode(heads, nitems, v, links, b, |v.chains[b]| - 1); }
  }

  ghost function Removed(v: View, k: string, p: nat): View
    requires 0 < |v.chains| && k in v.index && p < |v.chains[Bucket(k, |v.chains|)]|
  {
    var hv := Bucket(k, |v.chains|);
    var c := v.chains[hv];
    View(v.chains[hv := c[..p] + c[p + 1..]], v.index - {k}, v.nodes - {v.index[k]})
  }

  lemma ShapeRemoved(heads: seq<HashNode?>, nitems: int, v: View, links: Links, k: string, p: nat, prev: HashNode?)
    requires Shape(heads, nitems, v, links) && k in v.index
    requires var c := v.chains[Bucket(k, |v.chains|)];
             p < |c| && c[p] == v.index[k] && prev == (if p == 0 then null else c[p - 1])
    ensures prev != null ==> prev in v.nodes
    ensures var hv := Bucket(k, |v.chains|);
            var to := NextOf(v.chains[hv], p);
            Shape(SetHead(heads, hv, prev, to), nitems - 1, Removed(v, k, p), SetNext(links, prev, to) - {v.index[k]})
  {
    hide Bucket, HashOf, NextOf, Covers, ChainOk, Indexed;
    var hv := Bucket(k, |v.chains|);
    Unlinked(heads, v.chains, links, hv, p, prev);
    CoversUnlinked(v.chains, v.nodes, hv, p);
    IndexedRemoved(v.index, v.nodes, k);
    if prev != null { ShapeNode(heads, nitems, v, links, hv, p - 1); }
  }

  lemma NextMapKeys(pool: set<HashNode>)
    ensures NextMap(pool).Keys == pool
  {
  }

  lemma NextMapChanged(pool: set<HashNode>, n: HashNode)
    ensures NextMap(pool).Keys == pool
    ensures NextMap(pool + {n}) == NextMap(pool)[n := n.next] && NextMap(pool - {n}) == NextMap(pool) - {n}
  {
  }

  // ----- rehashing: the nodes move, one by one, to the front of their new chains

  ghost predicate Reached(b: nat, x: nat, i: nat, j: nat) {
    b < i || (b == i && x < j)
  }

  /** Chains [0, i) and the first j nodes of chain i have moved; the others are still linked as before. */
  ghost predicate Rehashing(heads: seq<HashNode?>, grown: seq<seq<HashNode>>, chains: seq<seq<HashNode>>, i: nat, j: nat,
                            moved: set<HashNode>, links: Links) {
    && WellLinked(heads, grown, links)
    && Covers(grown, moved)
    && (forall b, x :: 0 <= b < |grown| && 0 <= x < |grown[b]| ==> grown[b][x] in moved)
    && (forall b, x :: 0 <= b < |chains| && 0 <= x < |chains[b]| ==>
          && chains[b][x] in links
          && (chains[b][x] in moved <==> Reached(b, x, i, j))
          && (Reached(b, x, i, j) || links[chains[b][x]] == NextOf(chains[b], x)))
  }

  lemma ChainPrepended(head: HashNode?, c: seq<HashNode>, b: nat, size: nat, links: Links, n: HashNode)
    requires 0 < size && ChainOk(head, c, b, size, links) && n !in c && Bucket(n.key, size) == b
    ensures ChainOk(n, [n] + c, b, size, links[n := head])
  {
    hide Bucket, HashOf;
    var d, links' := [n] + c, links[n := head];
    forall x | 0 <= x < |d| ensures d[x] in links' && Bucket(d[x].key, size) == b && links'[d[x]] == NextOf(d, x) {
      if x > 0 { assert d[x] == c[x - 1] && NextOf(d, x) == NextOf(c, x - 1); }
    }
  }

  lemma Prepended(heads: seq<HashNode?>, chains: seq<seq<HashNode>>, links: Links, n: HashNode)
    requires WellLinked(heads, chains, links)
    requires forall b :: 0 <= b < |chains| ==> n !in chains[b]
    ensures var hv := Bucket(n.key, |chains|);
            WellLinked(heads[hv := n], chains[hv := [n] + chains[hv]], links[n := heads[hv]])
  {
    hide Bucket, HashOf, ChainOk;
    var hv := Bucket(n.key, |chains|);
    forall b | 0 <= b < |chains| && b != hv ensures ChainOk(heads[b], chains[b], b, |chains|, links[n := heads[hv]]) {
      ChainUntouched(heads[b], chains[b], b, |chains|, links, n, heads[hv]);
    }
    ChainPrepended(heads[hv], chains[hv], hv, |chains|, links, n);
  }

  lemma ChainUntouched(head: HashNode?, c: seq<HashNode>, b: nat, size: nat, links: Links, n: HashNode, to: HashNode?)
    requires 0 < size && ChainOk(head, c, b, size, links) && n !in c
    ensures ChainOk(head, c, b, size, links[n := to])
  {
    hide Bucket, HashOf;
  }

  /** Distinct places of a table hold distinct nodes. */
  ghost predicate Distinct(chains: seq<seq<HashNode>>) {
    forall b, x, b', x' ::
      (0 <= b < |chains| && 0 <= x < |chains[b]| && 0 <= b' < |chains| && 0 <= x' < |chains[b']| && chains[b][x] == chains[b'][x'])
      ==> b == b' && x == x'
  }

  lemma ShapeDistinct(heads: seq<HashNode?>, nitems: int, v: View, links: Links)
    requires Shape(heads, nitems, v, links)
    ensures Distinct(v.chains)
  {
    hide Bucket, HashOf, NextOf;
    forall b, x, b', x' | 0 <= b < |v.chains| && 0 <= x < |v.chains[b]| && 0 <= b' < |v.chains| && 0 <= x' < |v.chains[b']| &&
                          v.chains[b][x] == v.chains[b'][x']
      ensures b == b' && x == x'
    {
      ShapeNode(heads, nitems, v, links, b, x);
      ShapeNode(heads, nitems, v, links, b', x');
      assert ChainOk(heads[b], v.chains[b], b, |v.chains|, links);
    }
  }

  lemma RehashStart(heads: seq<HashNode?>, nitems: int, v: View, links: Links, size: nat)
    requires Shape(heads, nitems, v, links) && 0 < size
    ensures Rehashing(seq(size, _ => null), seq(size, _ => []), v.chains, 0, 0, {}, links)
  {
    hide Bucket, HashOf, NextOf;
    forall b, x | 0 <= b < |v.chains| && 0 <= x < |v.chains[b]|
      ensures v.chains[b][x] in links && links[v.chains[b][x]] == NextOf(v.chains[b], x)
    {
      ShapeNode(heads, nitems, v, links, b, x);
    }
  }

  lemma RehashStep(heads: seq<HashNode?>, grown: seq<seq<HashNode>>, chains: seq<seq<HashNode>>, i: nat, j: nat,
                   moved: set<HashNode>, links: Links)
    requires Rehashing(heads, grown, chains, i, j, moved, links) && Distinct(chains)
    requires i < |chains| && j < |chains[i]| && 0 < |grown|
    ensures var n := chains[i][j];
            var hv := Bucket(n.key, |grown|);
            && n in links && links[n] == NextOf(chains[i], j)
            && Rehashing(heads[hv := n], grown[hv := [n] + grown[hv]], chains, i, j + 1, moved + {n}, links[n := heads[hv]])
  {
    hide Bucket, HashOf, NextOf, ChainOk, WellLinked;
    var n := chains[i][j];
    assert n !in moved;
    var hv := Bucket(n.key, |grown|);
    Prepended(heads, grown, links, n);
    var fresh' := grown[hv := [n] + grown[hv]];
    forall b, x | 0 <= b < |fresh'| && 0 <= x < |fresh'[b]| ensures fresh'[b][x] in moved + {n} {
      if b == hv && x > 0 { assert fresh'[b][x] == grown[b][x - 1]; }
    }
    forall m | m in moved + {n} ensures m in fresh'[Bucket(m.key, |fresh'|)] {
      if m == n { assert fresh'[hv][0] == n; }
    }
  }

  lemma RehashNextChain(heads: seq<HashNode?>, grown: seq<seq<HashNode>>, chains: seq<seq<HashNode>>, i: nat,
                        moved: set<HashNode>, links: Links)
    requires i < |chains| && Rehashing(heads, grown, chains, i, |chains[i]|, moved, links)
    ensures Rehashing(heads, grown, chains, i + 1, 0, moved, links)
  {
    hide Bucket, HashOf, NextOf, ChainOk, WellLinked, Covers;
    assert forall b, x :: 0 <= b < |chains| && 0 <= x < |chains[b]| ==> Reached(b, x, i, |chains[i]|) == Reached(b, x, i + 1, 0);
  }

  lemma RehashDone(heads: seq<HashNode?>, grown: seq<seq<HashNode>>, v: View, moved: set<HashNode>, links: Links, nitems: int)
    requires Rehashing(heads, grown, v.chains, |v.chains|, 0, moved, links)
    requires 0 < |v.chains| && Covers(v.chains, v.nodes) && moved <= v.nodes
    requires links.Keys == v.nodes && Indexed(v.index, v.nodes) && nitems == |v.index|
    ensures Shape(heads, nitems, View(grown, v.index, v.nodes), links)
  {
    hide Bucket, HashOf, NextOf, ChainOk, WellLinked, Indexed;
    forall n | n in v.nodes ensures n in moved {
      var c := v.chains[Bucket(n.key, |v.chains|)];
      var x :| 0 <= x < |c| && c[x] == n;
    }
    assert moved == v.nodes;
  }

  /** The inner loop of `resize`: the nodes of chain `i` go to the front of their new chains. */
  method MoveChain(table: array<HashNode?>, i: nat, head: HashNode?, ghost v: View, ghost before: seq<seq<HashNode>>, ghost done: set<HashNode>)
    returns (ghost chains': seq<seq<HashNode>>, ghost moved: set<HashNode>)
    requires i < |v.chains| && head == Head(v.chains[i]) && Distinct(v.chains) && done <= v.nodes && |before| == table.Length
    requires 0 < table.Length && Rehashing(table[..], before, v.chains, i, 0, done, NextMap(v.nodes))
    modifies table, v.nodes
    ensures |chains'| == table.Length && moved <= v.nodes
    ensures Rehashing(table[..], chains', v.chains, i + 1, 0, moved, NextMap(v.nodes))
    ensures forall n :: n in v.nodes ==> n.obj == old(n.obj)
  {
    hide HashOf, NextMap, Rehashing, Distinct, NextOf;
    ghost var c := v.chains[i];
    ghost var j := 0;
    chains', moved := before, done;
    NextMapKeys(v.nodes);
    var n := head;
    while n != null
      invariant 0 <= j <= |c| && n == PlaceIn(c, j)
      invariant |chains'| == table.Length && moved <= v.nodes
      invariant Rehashing(table[..], chains', v.chains, i, j, moved, NextMap(v.nodes))
      invariant forall m :: m in v.nodes ==> m.obj == old(m.obj)
      decreases |c| - j
    {
      RehashStep(table[..], chains', v.chains, i, j, moved, NextMap(v.nodes));
      NextMapKeys(v.nodes);
      ghost var links := NextMap(v.nodes);
      assert links[n] == n.next by { NextMapAt(v.nodes, n); }
      NextIsPlace(c, j);
      var hv := Bucket(n.key, table.Length);
      var next := n.next;
      ghost var heads := table[..];
      SetNextLink(n, table[hv], v.nodes);
      table[hv] := n;
      chains', moved := chains'[hv := [n] + chains'[hv]], moved + {n};
      n, j := next, j + 1;
    }
    RehashNextChain(table[..], chains', v.chains, i, moved, NextMap(v.nodes));
  }

  method SetNextLink(n: HashNode, to: HashNode?, ghost pool: set<HashNode>)
    requires n in pool
    modifies n`next
    ensures NextMap(pool) == old(NextMap(pool))[n := to]
  {
    n.next := to;
  }

  function PlaceIn(c: seq<HashNode>, j: nat): HashNode?
    requires j <= |c|
  {
    if j < |c| then c[j] else null
  }

  lemma NextIsPlace(c: seq<HashNode>, j: nat)
    requires j < |c|
    ensures NextOf(c, j) == PlaceIn(c, j + 1)
  {
  }

  lemma NextMapAt(pool: set<HashNode>, n: HashNode)
    requires n in pool
    ensures n in NextMap(pool) && NextMap(pool)[n] == n.next
  {
  }

  ghost function Restricted(m: map<string, DOH>, visited: set<string>): map<string, DOH> {
    map k | k in m && k in visited :: m[k]
  }

  lemma RestrictedStep(m: map<string, DOH>, visited: set<string>, k: string)
    requires k in m
    ensures Restricted(m, visited + {k}) == Restricted(m, visited)[k := m[k]]
  {
  }

  // ----- the order of iteration

  datatype Iter = Iter(key: Option<string>, item: Option<DOH>, current: HashNode?, index: nat)

  /** All nodes of the chains from `b` on, in table order. */
  ghost function From(chains: seq<seq<HashNode>>, b: nat): seq<HashNode>
    decreases |chains| - b
  {
    if b >= |chains| then [] else chains[b] + From(chains, b + 1)
  }

  /** The part of a chain from node `n` on. */
  ghost function Suffix(c: seq<HashNode>, n: HashNode?): seq<HashNode> {
    if n == null || c == [] then [] else if c[0] == n then c else Suffix(c[1..], n)
  }

  /** What an iterator has yet to return. */
  ghost function Pending(chains: seq<seq<HashNode>>, it: Iter): seq<HashNode> {
    if it.index >= |chains| then [] else Suffix(chains[it.index], it.current) + From(chains, it.index + 1)
  }

  lemma FromStep(chains: seq<seq<HashNode>>, b: nat)
    requires b < |chains|
    ensures From(chains, b) == chains[b] + From(chains, b + 1)
  {
  }

  lemma FromEnd(chains: seq<seq<HashNode>>, b: nat)
    ensures b >= |chains| ==> From(chains, b) == []
  {
  }

  lemma SuffixNull(c: seq<HashNode>)
    ensures Suffix(c, null) == []
  {
  }

  lemma {:induction false} SuffixAt(c: seq<HashNode>, j: nat)
    requires NoDuplicates(c) && j < |c|
    ensures Suffix(c, c[j]) == c[j..]
  {
    if j != 0 {
      assert c[0] != c[j] && c[1..][j - 1] == c[j];
      SuffixAt(c[1..], j - 1);
      assert c[1..][j - 1..] == c[j..];
    } else {
      assert c[0..] == c;
    }
  }

  /** `n` is the least prime from `lo` on. */
  ghost predicate NextPrime(lo: int, n: int) {
    0 <= lo <= n && TableSize.IsPrime(n) && TableSize.NoPrimeIn(lo, n)
  }

  class Hash {
    var hashtable: array<HashNode?>
    var hashsize: int
    var nitems: int
    ghost var view: View

    ghost predicate Valid()
      reads this, hashtable, view.nodes
    {
      && 0 < hashsize == hashtable.Length == |view.chains|
      && Shape(hashtable[..], nitems, view, NextMap(view.nodes))
    }

    /** The load limit that holds between calls. */
    ghost predicate Sized()
      reads this
    {
      nitems < 2 * hashsize
    }

    ghost function Repr(): set<object>
      reads this
    {
      {this, hashtable} + view.nodes
    }

    /** The finite map the table stands for. */
    ghost function Map(): map<string, DOH>
      reads this, view.index.Values
    {
      map k | k in view.index :: view.index[k].obj
    }

    constructor ()
      ensures Valid() && Sized() && fresh(Repr())
      ensures Map() == map[] && hashsize == 7
    {
      hashsize := HASH_INIT_SIZE;
      hashtable := new HashNode?[HASH_INIT_SIZE](_ => null);
      nitems := 0;
      view := EmptyView(HASH_INIT_SIZE);
      new;
      EmptyShape(HASH_INIT_SIZE);
      assert hashtable[..] == seq(HASH_INIT_SIZE, _ => null);
    }

    lemma BucketFacts(b: nat)
      requires Valid() && b < |view.chains|
      ensures hashtable[b] == Head(view.chains[b])
    {
      hide Shape, NextMap;
      ShapeBucket(hashtable[..], nitems, view, NextMap(view.nodes), b);
    }

    lemma NodeFacts(b: nat, j: nat)
      requires Valid() && b < |view.chains| && j < |view.chains[b]|
      ensures var n := view.chains[b][j];
              && n in view.nodes && n.key in view.index && view.index[n.key] == n && Bucket(n.key, |view.chains|) == b
              && n.next == NextOf(view.chains[b], j)
    {
      hide Shape;
      ShapeNode(hashtable[..], nitems, view, NextMap(view.nodes), b, j);
    }

    lemma AbsentKey(k: string)
      requires Valid()
      requires var c := view.chains[Bucket(k, |view.chains|)]; forall i :: 0 <= i < |c| ==> c[i].key != k
      ensures k !in view.index
    {
      hide Shape;
      if k in view.index { ShapeKey(hashtable[..], nitems, view, NextMap(view.nodes), k); }
    }

    /** The walk down a chain shared by Setattr and Delattr: the node of the key and its predecessor. */
    method Find(k: string) returns (prev: HashNode?, n: HashNode?, ghost j: nat)
      requires Valid()
      ensures var c := view.chains[Bucket(k, |view.chains|)];
              && j <= |c|
              && (n == null <==> k !in view.index) && (n == null ==> j == |c|)
              && (n != null ==> j < |c| && n == c[j] == view.index[k])
              && prev == if j == 0 then null else c[j - 1]
    {
      hide HashOf, Shape;
      var hv := Bucket(k, hashsize);
      ghost var c := view.chains[hv];
      BucketFacts(hv);
      n, prev, j := hashtable[hv], null, 0;
      while n != null
        invariant j <= |c| && n == (if j < |c| then c[j] else null)
        invariant prev == if j == 0 then null else c[j - 1]
        invariant forall i :: 0 <= i < j ==> c[i].key != k
        decreases |c| - j
      {
        NodeFacts(hv, j);
        if n.key == k { return; }
        prev, n, j := n, n.next, j + 1;
      }
      AbsentKey(k);
    }

    /** Hash_getattr keeps walking and takes the last match. */
    method Getattr(k: string) returns (obj: Option<DOH>)
      requires Valid()
      ensures obj == if k in Map() then Some(Map()[k]) else None
    {
      hide HashOf, Shape;
      var hv := Bucket(k, hashsize);
      ghost var c := view.chains[hv];
      BucketFacts(hv);
      var n := hashtable[hv];
      obj := None;
      ghost var j := 0;
      while n != null
        invariant 0 <= j <= |c| && n == (if j < |c| then c[j] else null)
        invariant obj.Some? ==> k in view.index && obj.value == view.index[k].obj
        invariant obj.None? ==> forall i :: 0 <= i < j ==> c[i].key != k
        decreases |c| - j
      {
        NodeFacts(hv, j);
        if n.key == k { obj := Some(n.obj); }
        n, j := n.next, j + 1;
      }
      if obj.None? { AbsentKey(k); }
    }

    /** The node joins its chain behind the last one. */
    method InsertNode(n: HashNode, prev: HashNode?)
      requires Valid() && n.key !in view.index && n !in view.nodes && n.next == null
      requires var c := view.chains[Bucket(n.key, |view.chains|)]; prev == if c == [] then null else c[|c| - 1]
      modifies this`nitems, this`view, hashtable, view.nodes
      ensures Valid() && nitems == old(nitems) + 1 && view.nodes == old(view.nodes) + {n}
      ensures Map() == old(Map())[n.key := n.obj]
    {
      hide Bucket, HashOf, Shape, NextMap, SetHead, SetNext;
      var hv := Bucket(n.key, hashsize);
      ghost var pool := view.nodes;
      IndexIn(view);
      ShapeAdded(hashtable[..], nitems, view, NextMap(pool), n, prev);
      SetLink(hashtable, hv, prev, n, pool);
      NextMapChanged(pool, n);
      nitems := nitems + 1;
      view := Added(view, n);
    }

    lemma IndexIn(v: View)
      requires Valid() && v == view
      ensures forall k :: k in v.index ==> v.index[k] in v.nodes
    {
    }

    method Unlink(k: string, prev: HashNode?, n: HashNode, ghost p: nat)
      requires Valid() && k in view.index && n == view.index[k]
      requires var c := view.chains[Bucket(k, |view.chains|)];
               p < |c| && c[p] == n && prev == (if p == 0 then null else c[p - 1])
      modifies this`nitems, this`view, hashtable, view.nodes
      ensures Valid() && nitems == old(nitems) - 1
      ensures view == Removed(old(view), k, p) && Map() == old(Map()) - {k}
    {
      hide HashOf, Shape, NextMap, SetHead, SetNext;
      var hv := Bucket(k, hashsize);
      ghost var pool := view.nodes;
      NodeFacts(hv, p);
      IndexIn(view);
      ShapeRemoved(hashtable[..], nitems, view, NextMap(pool), k, p, prev);
      SetLink(hashtable, hv, prev, n.next, pool);
      NextMapChanged(pool, n);
      nitems := nitems - 1;
      view := Removed(view, k, p);
    }

    method Delattr(k: string) returns (r: int, ghost p: nat)
      requires Valid()
      modifies this`nitems, this`view, hashtable, view.nodes
      ensures Valid() && nitems == old(nitems) - r
      ensures Map() == old(Map()) - {k}
      ensures r == if k in old(Map()) then 1 else 0
      ensures if k in old(Map()) then
                var c := old(view).chains[Bucket(k, |old(view).chains|)];
                p < |c| && c[p] == old(view).index[k] && view == Removed(old(view), k, p)
              else view == old(view)
    {
      hide HashOf, Shape, NextMap;
      var prev, n;
      prev, n, p := Find(k);
      r := 0;
      if n != null {
        Unlink(k, prev, n, p);
        r := 1;
      } else {
        assert Map() - {k} == Map();
      }
    }

    method Setattr(k: string, obj: Option<DOH>) returns (r: int)
      requires Valid() && Sized()
      modifies this, hashtable, view.nodes
      ensures Valid() && Sized() && fresh(Repr() - old(Repr()))
      ensures obj.None? ==> r == (if k in old(Map()) then 1 else 0) && Map() == old(Map()) - {k}
      ensures obj.Some? ==> r == (if k in old(Map()) then 1 else 0) && Map() == old(Map())[k := obj.value]
    {
      hide HashOf, Shape, NextMap;
      ghost var p;
      if obj.None? {
        r, p := Delattr(k);
        return;
      }
      var prev, n;
      prev, n, p := Find(k);
      if n != null {
        r := 1;
        if n.obj != obj.value {
          IndexIn(view);
          Overwrite(k, n, obj.value);
        } else {
          assert Map()[k := obj.value] == Map();
        }
        return;
      }
      n := new HashNode(k, obj.value);
      InsertNode(n, prev);
      Resize();
      return 0;
    }

    method Overwrite(k: string, n: HashNode, obj: DOH)
      requires Valid() && k in view.index && n == view.index[k]
      modifies n`obj
      ensures Valid() && Map() == old(Map())[k := obj]
    {
      hide HashOf, Shape;
      IndexIn(view);
      assert forall k' :: k' in view.index && k' != k ==> view.index[k'] != n by { IndexKeys(view); }
      n.obj := obj;
      assert NextMap(view.nodes) == old(NextMap(view.nodes));
    }

    lemma IndexKeys(v: View)
      requires Valid() && v == view
      ensures forall k :: k in v.index ==> v.index[k].key == k
    {
    }

    /** `resize`: nothing below the load limit; otherwise every node moves to a table of the next prime size. */
    method Resize()
      requires Valid()
      modifies this, hashtable, view.nodes
      ensures Valid() && fresh(Repr() - old(Repr())) && Map() == old(Map()) && nitems == old(nitems)
      ensures view.nodes == old(view.nodes) && view.index == old(view.index)
      ensures old(nitems) <= 2 * old(hashsize) ==> Sized()
      ensures if old(nitems) < 2 * old(hashsize) then hashsize == old(hashsize)
              else NextPrime(2 * old(hashsize) + 1, hashsize)
    {
      hide HashOf, Shape, NextMap, Map;
      if nitems < 2 * hashsize { return; }
      Grow();
    }

    method Grow()
      requires Valid()
      modifies this, hashtable, view.nodes
      ensures Valid() && fresh(hashtable) && Map() == old(Map()) && nitems == old(nitems)
      ensures view.nodes == old(view.nodes) && view.index == old(view.index)
      ensures NextPrime(2 * old(hashsize) + 1, hashsize)
    {
      hide HashOf, Shape, NextMap, TableSize.IsPrime, TableSize.NoPrimeIn, Covers, Indexed;
      IndexIn(view);
      var newsize := TableSize.NextSize(hashsize);
      var table := new HashNode?[newsize](_ => null);
      ghost var v := view;
      ShapeParts(hashtable[..], nitems, v, NextMap(v.nodes));
      ghost var chains' := Redistribute(table);
      hashsize := newsize;
      hashtable := table;
      view := View(chains', v.index, v.nodes);
    }

    lemma ShapeParts(heads: seq<HashNode?>, count: int, v: View, links: Links)
      requires Shape(heads, count, v, links)
      ensures Covers(v.chains, v.nodes) && Indexed(v.index, v.nodes) && links.Keys == v.nodes && count == |v.index|
    {
    }

    /** The two loops of `resize` over buckets and chain nodes. */
    method Redistribute(table: array<HashNode?>) returns (ghost chains': seq<seq<HashNode>>)
      requires Valid() && 0 < table.Length && table != hashtable && table[..] == seq(table.Length, _ => null)
      modifies table, view.nodes
      ensures |chains'| == table.Length
      ensures Shape(table[..], nitems, View(chains', view.index, view.nodes), NextMap(view.nodes))
      ensures forall n :: n in view.nodes ==> n.obj == old(n.obj)
    {
      hide HashOf, Shape, NextMap, Rehashing, Distinct, Covers, Indexed;
      ghost var v := view;
      ghost var moved: set<HashNode> := {};
      ghost var heads, links := hashtable[..], NextMap(v.nodes);
      chains' := seq(table.Length, _ => []);
      ShapeDistinct(heads, nitems, v, links);
      ShapeParts(heads, nitems, v, links);
      RehashStart(heads, nitems, v, links, table.Length);
      var i := 0;
      while i < hashsize
        invariant 0 <= i <= hashsize && |chains'| == table.Length && moved <= v.nodes
        invariant Rehashing(table[..], chains', v.chains, i, 0, moved, NextMap(v.nodes))
        invariant forall n :: n in v.nodes ==> n.obj == old(n.obj)
      {
        ShapeBucket(heads, nitems, v, links, i);
        chains', moved := MoveChain(table, i, hashtable[i], v, chains', moved);
        i := i + 1;
      }
      NextMapKeys(v.nodes);
      RehashDone(table[..], chains', v, moved, NextMap(v.nodes), nitems);
    }

    /** Hash_clear; what becomes of the nodes' references is in `LedgerTables`. */
    method Clear()
      requires Valid()
      modifies this`nitems, this`view, hashtable
      ensures Valid() && Sized() && Map() == map[] && hashsize == old(hashsize) && view.nodes == {}
    {
      hide HashOf, Shape;
      var i := 0;
      while i < hashsize
        invariant 0 <= i <= hashsize == hashtable.Length
        invariant forall b :: 0 <= b < i ==> hashtable[b] == null
        modifies hashtable
      {
        hashtable[i] := null;
        i := i + 1;
      }
      EmptyShape(hashsize);
      assert hashtable[..] == seq(hashsize, _ => null);
      nitems := 0;
      view := EmptyView(hashsize);
    }

    constructor OfSize(size: nat)
      requires 0 < size
      ensures Valid() && Sized() && fresh(Repr()) && Map() == map[] && hashsize == size
    {
      hashsize := size;
      hashtable := new HashNode?[size](_ => null);
      nitems := 0;
      view := EmptyView(size);
      new;
      EmptyShape(size);
      assert hashtable[..] == seq(size, _ => null);
    }

    /** CopyHash: a table of the same size, filled in the order of the old chains. */
    method Copy() returns (nho: Hash)
      requires Valid() && Sized()
      ensures fresh(nho.Repr()) && nho.Valid() && nho.Sized() && nho.Map() == Map()
    {
      hide HashOf, Shape, Bucket, Map;
      nho := new Hash.OfSize(hashsize);
      ghost var visited: set<string> := {};
      var i := 0;
      while i < hashsize
        invariant 0 <= i <= hashsize && fresh(nho.Repr()) && nho.Valid() && nho.Sized()
        invariant nho.Map() == Restricted(Map(), visited)
        invariant forall b, x :: 0 <= b < i && 0 <= x < |view.chains[b]| ==> view.chains[b][x].key in visited
      {
        visited := CopyChain(nho, i, visited);
        i := i + 1;
      }
      forall k | k in view.index ensures k in visited {
        KeyFacts(k);
        var c := view.chains[Bucket(k, |view.chains|)];
        var x :| 0 <= x < |c| && c[x] == view.index[k];
      }
      WholeMap(visited);
    }

    lemma WholeMap(visited: set<string>)
      requires view.index.Keys <= visited
      ensures Restricted(Map(), visited) == Map()
    {
    }

    method CopyChain(nho: Hash, i: nat, ghost before: set<string>) returns (ghost visited: set<string>)
      requires Valid() && i < |view.chains| && nho.Valid() && nho.Sized() && Repr() !! nho.Repr()
      requires nho.Map() == Restricted(Map(), before)
      modifies nho, nho.hashtable, nho.view.nodes
      ensures nho.Valid() && nho.Sized() && fresh(nho.Repr() - old(nho.Repr()))
      ensures before <= visited && nho.Map() == Restricted(Map(), visited)
      ensures forall x :: 0 <= x < |view.chains[i]| ==> view.chains[i][x].key in visited
    {
      hide HashOf, Shape, Bucket, Map;
      visited := before;
      ghost var c := view.chains[i];
      BucketFacts(i);
      var n := hashtable[i];
      ghost var j := 0;
      while n != null
        invariant 0 <= j <= |c| && n == PlaceIn(c, j) && before <= visited
        invariant nho.Valid() && nho.Sized() && fresh(nho.Repr() - old(nho.Repr())) && Repr() !! nho.Repr()
        invariant nho.Map() == Restricted(Map(), visited)
        invariant forall x :: 0 <= x < j ==> c[x].key in visited
        decreases |c| - j
      {
        NodeFacts(i, j);
        MapAt(n.key);
        IndexIn(view);
        assert view.index.Values <= view.nodes;
        ghost var m := Map();
        RestrictedStep(Map(), visited, n.key);
        var r := nho.Setattr(n.key, Some(n.obj));
        assert Map() == m;
        visited := visited + {n.key};
        n, j := n.next, j + 1;
      }
    }

    lemma MapAt(k: string)
      requires k in view.index
      ensures k in Map() && Map()[k] == view.index[k].obj
    {
    }

    lemma KeyFacts(k: string)
      requires Valid() && k in view.index
      ensures view.index[k] in view.chains[Bucket(k, |view.chains|)] && view.index[k].key == k
    {
      hide Shape;
      ShapeKey(hashtable[..], nitems, view, NextMap(view.nodes), k);
    }

    // ----- iteration

    /** The order of iteration holds every key of the map exactly once. */
    lemma AllKeys()
      requires Valid()
      ensures NoDuplicates(Keys(From(view.chains, 0)))
      ensures forall k :: k in Keys(From(view.chains, 0)) <==> k in Map()
    {
      hide Bucket, HashOf, From;
      var all := From(view.chains, 0);
      ShapeDistinct(hashtable[..], nitems, view, NextMap(view.nodes));
      FromPlaces(view.chains, 0);
      hide Shape, Distinct;
      forall x | 0 <= x < |all| ensures all[x].key in view.index && view.index[all[x].key] == all[x] {
        assert OnChain(view.chains, 0, all[x]);
        var b :| 0 <= b < |view.chains| && all[x] in view.chains[b];
        var j :| 0 <= j < |view.chains[b]| && view.chains[b][j] == all[x];
        NodeFacts(b, j);
      }
      forall k | k in view.index ensures k in Keys(all) {
        KeyFacts(k);
        assert view.index[k] in all;
        var x :| 0 <= x < |all| && all[x] == view.index[k];
        assert Keys(all)[x] == k;
      }
    }

    /** Hash_firstiter and Hash_nextiter skip empty buckets from `i` on. */
    method SkipEmpty(i: int) returns (r: int)
      requires Valid() && 0 <= i <= hashsize
      ensures i <= r <= hashsize && (r < hashsize ==> hashtable[r] != null && view.chains[r] != [])
      ensures From(view.chains, i) == From(view.chains, r)
    {
      hide HashOf, Shape, Bucket, From;
      r := i;
      while r < hashsize && hashtable[r] == null
        invariant i <= r <= hashsize && From(view.chains, i) == From(view.chains, r)
      {
        BucketFacts(r);
        FromStep(view.chains, r);
        assert view.chains[r] == [];
        r := r + 1;
      }
      if r < hashsize { BucketFacts(r); }
    }

    /** The iterator stands behind place `p` of the chain it is in. */
    ghost predicate Behind(it: Iter, n: HashNode, p: nat)
      reads this
    {
      && 0 < |view.chains|
      && it.index == Bucket(n.key, |view.chains|)
      && p < |view.chains[it.index]| && view.chains[it.index][p] == n
      && it.current == PlaceIn(view.chains[it.index], p + 1)
    }

    ghost predicate At(it: Iter)
      reads this
    {
      && (it.current != null ==> it.index < |view.chains| && exists p :: 0 <= p < |view.chains[it.index]| && view.chains[it.index][p] == it.current)
    }

    method FirstIter() returns (it: Iter, ghost p: nat)
      requires Valid()
      ensures At(it)
      ensures var all := From(view.chains, 0);
              if all == [] then it.key == None && it.item == None
              else
                && it.key == Some(all[0].key) && it.item == Some(all[0].obj)
                && Pending(view.chains, it) == all[1..] && Behind(it, all[0], p)
    {
      hide HashOf, Shape, Bucket, From;
      var i := SkipEmpty(0);
      p := 0;
      if i >= hashsize {
        FromEnd(view.chains, i);
        return Iter(None, None, null, i), 0;
      }
      BucketFacts(i);
      FromStep(view.chains, i);
      ChainUnique(i);
      SuffixAt(view.chains[i], 0);
      it, p := Take(i, hashtable[i], 0);
    }

    /** The node an iterator stands at is returned and the next link saved. */
    method Take(i: nat, n: HashNode, ghost j: nat) returns (it: Iter, ghost p: nat)
      requires Valid() && i < |view.chains| && j < |view.chains[i]| && n == view.chains[i][j]
      ensures At(it) && it.key == Some(n.key) && it.item == Some(n.obj) && Behind(it, n, p)
      ensures [n] + Pending(view.chains, it) == Suffix(view.chains[i], n) + From(view.chains, i + 1)
    {
      hide HashOf, Shape, Bucket, From, Suffix;
      NodeFacts(i, j);
      NextIsPlace(view.chains[i], j);
      ChainUnique(i);
      SuffixAt(view.chains[i], j);
      if j + 1 < |view.chains[i]| { SuffixAt(view.chains[i], j + 1); } else { SuffixNull(view.chains[i]); }
      it, p := Iter(Some(n.key), Some(n.obj), n.next, i), j;
      assert view.chains[i][j..] == [n] + view.chains[i][j + 1..];
    }

    lemma ChainUnique(b: nat)
      requires Valid() && b < |view.chains|
      ensures NoDuplicates(view.chains[b])
    {
      hide Bucket, HashOf, NextOf;
      assert ChainOk(hashtable[..][b], view.chains[b], b, |view.chains|, NextMap(view.nodes));
    }

    method NextIter(last: Iter) returns (it: Iter, ghost p: nat)
      requires Valid() && At(last)
      ensures At(it)
      ensures var rest := Pending(view.chains, last);
              if rest == [] then it.key == None && it.item == None
              else
                && it.key == Some(rest[0].key) && it.item == Some(rest[0].obj)
                && Pending(view.chains, it) == rest[1..] && Behind(it, rest[0], p)
    {
      hide HashOf, Shape, Bucket, From, Suffix;
      ghost var rest := Pending(view.chains, last);
      p := 0;
      if last.current == null {
        if last.index < hashsize { SuffixNull(view.chains[last.index]); }
        var next := if last.index + 1 <= hashsize then last.index + 1 else hashsize;
        FromEnd(view.chains, hashsize);
        FromEnd(view.chains, last.index + 1);
        var i := SkipEmpty(next);
        if i >= hashsize { return Iter(None, None, null, i), 0; }
        BucketFacts(i);
        FromStep(view.chains, i);
        ChainUnique(i);
        SuffixAt(view.chains[i], 0);
        it, p := Take(i, hashtable[i], 0);
      } else {
        ghost var j :| 0 <= j < |view.chains[last.index]| && view.chains[last.index][j] == last.current;
        ChainUnique(last.index);
        SuffixAt(view.chains[last.index], j);
        it, p := Take(last.index, last.current, j);
      }
    }
  }

  // ----- a whole walk

  function Keys(nodes: seq<HashNode>): seq<string> {
    seq(|nodes|, i requires 0 <= i < |nodes| => nodes[i].key)
  }

  /** Node `n` is on one of the chains from `b` on. */
  ghost predicate OnChain(chains: seq<seq<HashNode>>, b: nat, n: HashNode) {
    exists i :: b <= i < |chains| && n in chains[i]
  }

  /** Every entry is on exactly one place of the order of iteration. */
  lemma {:induction false} FromPlaces(chains: seq<seq<HashNode>>, b: nat)
    requires Distinct(chains)
    ensures var all := From(chains, b);
            && NoDuplicates(all)
            && (forall x :: 0 <= x < |all| ==> OnChain(chains, b, all[x]))
            && (forall i, y :: b <= i < |chains| && 0 <= y < |chains[i]| ==> chains[i][y] in all)
    decreases |chains| - b
  {
    if b < |chains| {
      FromPlaces(chains, b + 1);
      var c, rest := chains[b], From(chains, b + 1);
      forall x, z | 0 <= x < |c| && 0 <= z < |rest| ensures c[x] != rest[z] {
        assert OnChain(chains, b + 1, rest[z]);
        var i :| b + 1 <= i < |chains| && rest[z] in chains[i];
        var y :| 0 <= y < |chains[i]| && chains[i][y] == rest[z];
        assert chains[b][x] != chains[i][y];
      }
      forall x, y | 0 <= x < y < |c| ensures c[x] != c[y] {
        assert chains[b][x] != chains[b][y];
      }
      NoDuplicatesConcat(c, rest);
      forall x | 0 <= x < |c + rest| ensures OnChain(chains, b, (c + rest)[x]) {
        if x < |c| {
          assert (c + rest)[x] in chains[b];
        } else {
          assert OnChain(chains, b + 1, rest[x - |c|]);
        }
      }
    }
  }

  lemma NoDuplicatesConcat<T>(a: seq<T>, b: seq<T>)
    requires NoDuplicates(a) && NoDuplicates(b) && forall x, y :: 0 <= x < |a| && 0 <= y < |b| ==> a[x] != b[y]
    ensures NoDuplicates(a + b)
  {
    forall i, j | 0 <= i < j < |a + b| ensures (a + b)[i] != (a + b)[j] {
      assert (a + b)[i] == if i < |a| then a[i] else b[i - |a|];
      assert (a + b)[j] == if j < |a| then a[j] else b[j - |a|];
    }
  }

  lemma {:induction false} FromFrame(chains: seq<seq<HashNode>>, chains': seq<seq<HashNode>>, b: nat)
    requires |chains| == |chains'| && forall i :: b <= i < |chains| ==> chains[i] == chains'[i]
    ensures From(chains, b) == From(chains', b)
    decreases |chains| - b
  {
    if b < |chains| { FromFrame(chains, chains', b + 1); }
  }

  /** Removing the entry an iterator has just returned leaves what is pending as it was. */
  lemma RemovalKeepsPending(v: View, k: string, p: nat, it: Iter)
    requires 0 < |v.chains| && k in v.index && it.index == Bucket(k, |v.chains|)
    requires var c := v.chains[it.index];
             p < |c| && NoDuplicates(c) && it.current == PlaceIn(c, p + 1)
    ensures Pending(Removed(v, k, p).chains, it) == Pending(v.chains, it)
  {
    hide Bucket, HashOf, From, Suffix;
    var c, chains' := v.chains[it.index], Removed(v, k, p).chains;
    var d := c[..p] + c[p + 1..];
    FromFrame(v.chains, chains', it.index + 1);
    if p + 1 < |c| {
      SuffixAt(c, p + 1);
      assert d[p] == c[p + 1];
      SuffixAt(d, p);
      assert d[p..] == c[p + 1..];
    } else {
      SuffixNull(c);
      SuffixNull(d);
    }
  }

  /** Deleting the entry just returned: the iterator still stands where it stood. */
  method DeleteReturned(h: Hash, it: Iter, ghost n: HashNode, ghost p: nat)
    requires h.Valid() && h.Sized() && h.At(it) && h.Behind(it, n, p) && it.key == Some(n.key)
    modifies h`nitems, h`view, h.hashtable, h.view.nodes
    ensures h.Valid() && h.Sized() && h.At(it) && h.view.nodes <= old(h.view.nodes)
    ensures Pending(h.view.chains, it) == old(Pending(h.view.chains, it))
    ensures h.Map() == old(h.Map()) - {n.key}
  {
    hide Bucket, HashOf, Shape, From, Suffix;
    ghost var v := h.view;
    ghost var c := v.chains[it.index];
    h.NodeFacts(it.index, p);
    h.ChainUnique(it.index);
    RemovalKeepsPending(v, n.key, p, it);
    var r, q := h.Delattr(it.key.value);
    assert q == p;
    if p + 1 < |c| { assert (c[..p] + c[p + 1..])[p] == c[p + 1]; }
  }

  /** The body of the loop below: the current entry goes when its key is doomed. */
  method Visit(h: Hash, it: Iter, doomed: set<string>, ghost n: HashNode, ghost p: nat)
    requires h.Valid() && h.Sized() && h.At(it) && h.Behind(it, n, p) && it.key == Some(n.key)
    modifies h`nitems, h`view, h.hashtable, h.view.nodes
    ensures h.Valid() && h.Sized() && h.At(it) && h.view.nodes <= old(h.view.nodes)
    ensures Pending(h.view.chains, it) == old(Pending(h.view.chains, it))
    ensures h.Map() == old(h.Map()) - (doomed * {n.key})
  {
    hide *;
    if it.key.value in doomed {
      DeleteReturned(h, it, n, p);
      assert doomed * {n.key} == {n.key};
    } else {
      assert doomed * {n.key} == {};
      assert h.Map() - {} == h.Map();
    }
  }

  lemma KeysSnoc(all: seq<HashNode>, i: nat)
    requires i < |all|
    ensures Keys(all[..i + 1]) == Keys(all[..i]) + [all[i].key]
  {
  }

  /** `for (i = First(h); i.key; i = Next(i))` with deletion of the current entry when its key is doomed: every
      entry is returned exactly once, in table order, whatever is deleted on the way. */
  method Walk(h: Hash, doomed: set<string>) returns (visited: seq<string>)
    requires h.Valid() && h.Sized()
    modifies h`nitems, h`view, h.hashtable, h.view.nodes
    ensures h.Valid() && h.Sized()
    ensures visited == Keys(old(From(h.view.chains, 0))) && NoDuplicates(visited)
    ensures forall k :: k in visited <==> k in old(h.Map())
    ensures h.Map() == old(h.Map()) - doomed
  {
    hide *;
    ghost var all, m := From(h.view.chains, 0), h.Map();
    h.AllKeys();
    var it;
    ghost var p;
    it, p := h.FirstIter();
    visited := [];
    ghost var i, gone := 0, {};
    assert Keys(all[..0]) == [] by { KeysEmpty(all); }
    while it.key.Some?
      invariant 0 <= i <= |all| && visited == Keys(all[..i])
      invariant h.Valid() && h.Sized() && h.At(it) && h.view.nodes <= old(h.view.nodes)
      invariant i < |all| ==> it.key == Some(all[i].key) && Pending(h.view.chains, it) == all[i + 1..] && h.Behind(it, all[i], p)
      invariant i == |all| ==> it.key == None
      invariant h.Map() == m - gone && gone <= doomed && forall k :: k in visited && k in doomed ==> k in gone
      decreases |all| - i
    {
      visited := visited + [it.key.value];
      KeysSnoc(all, i);
      Visit(h, it, doomed, all[i], p);
      gone := gone + doomed * {all[i].key};
      it, p := h.NextIter(it);
      i := i + 1;
    }
    assert all[..i] == all;
    assert m - gone == m - doomed;
  }

  lemma KeysEmpty(all: seq<HashNode>)
    ensures Keys(all[..0]) == []
  {
  }
}
