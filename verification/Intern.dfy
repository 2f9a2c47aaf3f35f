/** The interning tree of the hash tables (Source/DOH/hash.c:34-81): a binary search tree of C strings that gives every
    content one string object, for good.
 */
module Intern {
  import opened Lex

  type DOH = nat

  class KeyValue {
    const cstr: string
    const sstr: DOH
    var left: KeyValue?
    var right: KeyValue?

    constructor (c: string, obj: DOH)
      ensures cstr == c && sstr == obj && left == null && right == null
    {
      cstr, sstr := c, obj;
      left, right := null, null;
    }
  }

  /** The shape of the tree, as a value. */
  datatype Tree = Leaf | Node(left: Tree, kv: KeyValue, right: Tree)

  type Links = map<KeyValue, (KeyValue?, KeyValue?)>

  ghost function Nodes(t: Tree): set<KeyValue> {
    match t
    case Leaf => {}
    case Node(l, kv, r) => Nodes(l) + {kv} + Nodes(r)
  }

  /** The pointers `links` lay out tree `t` under the pointer `n`. */
  ghost predicate Rep(t: Tree, n: KeyValue?, links: Links) {
    match t
    case Leaf => n == null
    case Node(l, kv, r) => n == kv && kv in links && Rep(l, links[kv].0, links) && Rep(r, links[kv].1, links)
  }

  /** No node occurs twice. */
  ghost predicate Tidy(t: Tree) {
    match t
    case Leaf => true
    case Node(l, kv, r) => kv !in Nodes(l) && kv !in Nodes(r) && Nodes(l) !! Nodes(r) && Tidy(l) && Tidy(r)
  }

  /** Greater strings are on the left. */
  ghost predicate Ordered(t: Tree) {
    match t
    case Leaf => true
    case Node(l, kv, r) =>
      && (forall x :: x in Nodes(l) ==> Compare(kv.cstr, x.cstr, false) < 0)
      && (forall x :: x in Nodes(r) ==> Compare(kv.cstr, x.cstr, false) > 0)
      && Ordered(l) && Ordered(r)
  }

  /** The object of each content. */
  ghost function Objects(t: Tree): map<string, DOH> {
    match t
    case Leaf => map[]
    case Node(l, kv, r) => Objects(l) + Objects(r) + map[kv.cstr := kv.sstr]
  }

  /** The subtree one comparison leads to. */
  ghost function Side(t: Tree, c: string): Tree
    requires t.Node?
  {
    if Compare(t.kv.cstr, c, false) < 0 then t.left else t.right
  }

  lemma {:induction false} ObjectsKeys(t: Tree, c: string)
    ensures c in Objects(t) <==> exists n :: n in Nodes(t) && n.cstr == c
  {
    match t
    case Leaf =>
    case Node(l, kv, r) =>
      ObjectsKeys(l, c);
      ObjectsKeys(r, c);
      if c in Objects(l) {
        var n :| n in Nodes(l) && n.cstr == c;
        assert n in Nodes(t);
      } else if c in Objects(r) {
        var n :| n in Nodes(r) && n.cstr == c;
        assert n in Nodes(t);
      } else if c == kv.cstr {
        assert kv in Nodes(t);
      }
  }

  /** Following one comparison loses nothing: the other side cannot hold the string. */
  lemma SearchStep(t: Tree, c: string)
    requires t.Node? && Ordered(t) && Compare(t.kv.cstr, c, false) != 0
    ensures t.kv.cstr != c && Ordered(Side(t, c))
    ensures c in Objects(t) <==> c in Objects(Side(t, c))
    ensures c in Objects(t) ==> Objects(t)[c] == Objects(Side(t, c))[c]
  {
    CompareZero(t.kv.cstr, c, false);
    ObjectsKeys(t.left, c);
    ObjectsKeys(t.right, c);
  }

  lemma SearchHit(t: Tree, c: string)
    requires t.Node? && Compare(t.kv.cstr, c, false) == 0
    ensures c in Objects(t) && Objects(t)[c] == t.kv.sstr
  {
    CompareZero(t.kv.cstr, c, false);
  }

  /** The tree with a new leaf where the search for its string ends. */
  ghost function Insert(t: Tree, n: KeyValue): Tree {
    match t
    case Leaf => Node(Leaf, n, Leaf)
    case Node(l, kv, r) =>
      if Compare(kv.cstr, n.cstr, false) < 0 then Node(Insert(l, n), kv, r) else Node(l, kv, Insert(r, n))
  }

  lemma {:induction false} InsertNodes(t: Tree, n: KeyValue)
    ensures Nodes(Insert(t, n)) == Nodes(t) + {n}
  {
    match t
    case Leaf =>
    case Node(l, kv, r) =>
      InsertNodes(l, n);
      InsertNodes(r, n);
  }

  lemma {:induction false} InsertOrdered(t: Tree, n: KeyValue)
    requires Ordered(t) && n.cstr !in Objects(t)
    ensures Ordered(Insert(t, n))
  {
    hide Compare;
    match t
    case Leaf =>
    case Node(l, kv, r) =>
      CompareZero(kv.cstr, n.cstr, false);
      InsertNodes(l, n);
      InsertNodes(r, n);
      if Compare(kv.cstr, n.cstr, false) < 0 { InsertOrdered(l, n); } else { InsertOrdered(r, n); }
  }

  lemma {:induction false} InsertTidy(t: Tree, n: KeyValue)
    requires Tidy(t) && n !in Nodes(t)
    ensures Tidy(Insert(t, n))
  {
    hide Compare;
    match t
    case Leaf =>
    case Node(l, kv, r) =>
      InsertNodes(l, n);
      InsertNodes(r, n);
      if Compare(kv.cstr, n.cstr, false) < 0 { InsertTidy(l, n); } else { InsertTidy(r, n); }
  }

  lemma {:induction false} InsertObjects(t: Tree, n: KeyValue)
    requires n.cstr !in Objects(t)
    ensures Objects(Insert(t, n)) == Objects(t)[n.cstr := n.sstr]
  {
    hide Compare;
    match t
    case Leaf =>
    case Node(l, kv, r) =>
      if Compare(kv.cstr, n.cstr, false) < 0 {
        InsertObjects(l, n);
        InsertLeftObjects(Objects(l), Objects(r), kv.cstr, kv.sstr, n.cstr, n.sstr);
      } else {
        InsertObjects(r, n);
        InsertRightObjects(Objects(l), Objects(r), kv.cstr, kv.sstr, n.cstr, n.sstr);
      }
  }

  lemma InsertRightObjects(l: map<string, DOH>, r: map<string, DOH>, k: string, v: DOH, c: string, o: DOH)
    requires c != k
    ensures l + r[c := o] + map[k := v] == (l + r + map[k := v])[c := o]
  {
  }

  lemma InsertLeftObjects(l: map<string, DOH>, r: map<string, DOH>, k: string, v: DOH, c: string, o: DOH)
    requires c !in r && c != k
    ensures l[c := o] + r + map[k := v] == (l + r + map[k := v])[c := o]
  {
  }

  /** The node the search for an absent string ends at; the new leaf is hung below it. */
  ghost function Last(t: Tree, c: string): KeyValue
    requires t.Node?
  {
    if Side(t, c).Leaf? then t.kv else Last(Side(t, c), c)
  }

  ghost function Hung(links: Links, s: KeyValue, n: KeyValue): Links
    requires s in links
  {
    links[s := if Compare(s.cstr, n.cstr, false) < 0 then (n, links[s].1) else (links[s].0, n)][n := (null, null)]
  }

  lemma {:induction false} RepKeys(t: Tree, p: KeyValue?, links: Links)
    requires Rep(t, p, links)
    ensures forall x :: x in Nodes(t) ==> x in links
  {
    match t
    case Leaf =>
    case Node(l, kv, r) =>
      RepKeys(l, links[kv].0, links);
      RepKeys(r, links[kv].1, links);
  }

  lemma {:induction false} RepFrame(t: Tree, p: KeyValue?, links: Links, links': Links)
    requires Rep(t, p, links) && forall x :: x in Nodes(t) ==> x in links && x in links' && links'[x] == links[x]
    ensures Rep(t, p, links')
  {
    match t
    case Leaf =>
    case Node(l, kv, r) =>
      RepFrame(l, links[kv].0, links, links');
      RepFrame(r, links[kv].1, links, links');
  }

  lemma {:induction false} LastInside(t: Tree, c: string)
    requires t.Node?
    ensures Last(t, c) in Nodes(t)
  {
    if Side(t, c).Node? { LastInside(Side(t, c), c); }
  }

  /** Hanging one node below the last one visited is insertion. */
  lemma {:induction false} HungIsInsert(t: Tree, p: KeyValue?, links: Links, n: KeyValue)
    requires t.Node? && Rep(t, p, links) && Tidy(t) && n !in Nodes(t)
    ensures Last(t, n.cstr) in links && Rep(Insert(t, n), p, Hung(links, Last(t, n.cstr), n))
  {
    RepKeys(t, p, links);
    LastInside(t, n.cstr);
    var s := Last(t, n.cstr);
    var links' := Hung(links, s, n);
    var side := Side(t, n.cstr);
    var less := Compare(t.kv.cstr, n.cstr, false) < 0;
    if less {
      if side.Node? { HungIsInsert(t.left, links[t.kv].0, links, n); LastInside(side, n.cstr); }
      RepFrame(t.right, links[t.kv].1, links, links');
    } else {
      if side.Node? { HungIsInsert(t.right, links[t.kv].1, links, n); LastInside(side, n.cstr); }
      RepFrame(t.left, links[t.kv].0, links, links');
    }
  }

  ghost function LinkMap(pool: set<KeyValue>): Links
    reads pool
  {
    map n | n in pool :: (n.left, n.right)
  }

  lemma LinkAt(pool: set<KeyValue>, n: KeyValue)
    requires n in pool
    ensures n in LinkMap(pool) && LinkMap(pool)[n] == (n.left, n.right)
  {
  }

  /** One step down the tree in memory is one step down its shape. */
  lemma RepStep(t: Tree, r: KeyValue?, links: Links, c: string)
    requires Rep(t, r, links) && r != null
    ensures t.Node? && t.kv == r && r in links && r in Nodes(t) && Nodes(Side(t, c)) <= Nodes(t)
    ensures Rep(Side(t, c), if Compare(r.cstr, c, false) < 0 then links[r].0 else links[r].1, links)
  {
  }

  lemma RepNull(t: Tree, links: Links)
    requires Rep(t, null, links)
    ensures t == Leaf && Objects(t) == map[]
  {
  }

  lemma OneLeaf(n: KeyValue, links: Links)
    requires n in links && links[n] == (null, null)
    ensures Insert(Leaf, n) == Node(Leaf, n, Leaf) && Rep(Insert(Leaf, n), n, links)
  {
  }

  class KeyTable {
    var root: KeyValue?
    ghost var tree: Tree

    ghost predicate Valid()
      reads this, Nodes(tree)
    {
      Rep(tree, root, LinkMap(Nodes(tree))) && Tidy(tree) && Ordered(tree)
    }

    constructor ()
      ensures Valid() && tree == Leaf && Objects(tree) == map[]
    {
      root := null;
      tree := Leaf;
    }

    /** find_key: the object of a content that was seen before is the one it had; a new content gets `obj`, the string
        made for it, and keeps it. */
    method FindKey(c: string, obj: DOH) returns (sstr: DOH)
      requires Valid()
      modifies this, Nodes(tree)
      ensures Valid() && forall n :: n in Nodes(tree) ==> n in old(Nodes(tree)) || fresh(n)
      ensures var was := old(Objects(tree));
              Objects(tree) == (if c in was then was else was[c := obj]) && sstr == Objects(tree)[c]
    {
      hide Objects, Insert, Nodes, Tidy, Ordered, Compare, LinkMap, Rep;
      ghost var pool := Nodes(tree);
      ghost var links := LinkMap(pool);
      var r := root;
      var s: KeyValue? := null;
      var d := 0;
      ghost var sub := tree;
      while r != null
        invariant Rep(sub, r, links) && Ordered(sub) && Nodes(sub) <= pool
        invariant c in Objects(sub) <==> c in Objects(tree)
        invariant c in Objects(tree) ==> Objects(sub)[c] == Objects(tree)[c]
        invariant s == null ==> sub == tree
        invariant s != null ==> tree.Node? && Last(tree, c) == if sub.Leaf? then s else Last(sub, c)
        invariant s != null ==> d == Compare(s.cstr, c, false)
        modifies {}
        decreases sub
      {
        s := r;
        RepStep(sub, r, links, c);
        LinkAt(pool, r);
        d := Compare(r.cstr, c, false);
        if d == 0 {
          SearchHit(sub, c);
          return r.sstr;
        }
        SearchStep(sub, c);
        if d < 0 {
          r := r.left;
        } else {
          r := r.right;
        }
        sub := Side(sub, c);
      }
      RepNull(sub, links);
      if s != null { LastInside(tree, c); }
      r := new KeyValue(c, obj);
      sstr := Grow(r, s, d);
    }

    /** The end of find_key: the new node becomes the root or hangs below the last one visited. */
    method Grow(r: KeyValue, s: KeyValue?, d: int) returns (sstr: DOH)
      requires Valid() && r !in Nodes(tree) && r.cstr !in Objects(tree) && r.left == null && r.right == null
      requires if s == null then tree.Leaf? else tree.Node? && s == Last(tree, r.cstr) && d == Compare(s.cstr, r.cstr, false)
      modifies this, s
      ensures Valid() && Nodes(tree) == old(Nodes(tree)) + {r}
      ensures Objects(tree) == old(Objects(tree))[r.cstr := r.sstr] && sstr == Objects(tree)[r.cstr]
    {
      hide Objects, Insert, Nodes, Tidy, Ordered, Compare, Rep, Last;
      ghost var links := LinkMap(Nodes(tree));
      InsertNodes(tree, r);
      InsertOrdered(tree, r);
      InsertTidy(tree, r);
      InsertObjects(tree, r);
      if s == null {
        root := r;
        OneLeaf(r, LinkMap(Nodes(Insert(tree, r))));
      } else {
        HungIsInsert(tree, root, links, r);
        if d < 0 {
          s.left := r;
        } else {
          s.right := r;
        }
        assert LinkMap(Nodes(Insert(tree, r))) == Hung(links, s, r);
      }
      ghost var links' := LinkMap(Nodes(Insert(tree, r)));
      tree := Insert(tree, r);
      assert LinkMap(Nodes(tree)) == links';
      assert Rep(tree, root, links');
      sstr := r.sstr;
    }
  }

  /** Interned keys can be compared as pointers: two requests get the same object exactly when they are for the same
      content.  Each new string object is a fresh one. */
  method FindKeys(keys: seq<string>) returns (objs: seq<DOH>)
    ensures |objs| == |keys| && forall i, j :: 0 <= i < |keys| && 0 <= j < |keys| ==> (objs[i] == objs[j] <==> keys[i] == keys[j])
  {
    hide Objects, KeyTable.Valid;
    var table := new KeyTable();
    objs := [];
    for i := 0 to |keys|
      invariant |objs| == i && table.Valid() && fresh(table)
      invariant forall n :: n in Nodes(table.tree) ==> fresh(n)
      invariant forall k :: k in Objects(table.tree) ==> Objects(table.tree)[k] < i
      invariant forall k, l :: k in Objects(table.tree) && l in Objects(table.tree) && k != l ==>
                  Objects(table.tree)[k] != Objects(table.tree)[l]
      invariant forall j :: 0 <= j < i ==> keys[j] in Objects(table.tree) && objs[j] == Objects(table.tree)[keys[j]]
    {
      var obj := table.FindKey(keys[i], i);
      objs := objs + [obj];
    }
  }
}
