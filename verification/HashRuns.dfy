/** Whole runs of table operations (Source/DOH/hash.c): any sequence of Setattr, Getattr, Delattr, Clear and Copy,
    across any number of resizes, answers as a finite map from key contents to objects would.
 */
module HashRuns {
  import opened Wrappers
  import opened HashTable
  import opened StringHash

  datatype Op = Set(key: string, obj: Option<DOH>) | Get(key: string) | Del(key: string) | Wipe | Duplicate

  datatype Answer = Replaced(r: int) | Found(obj: Option<DOH>) | Removal(r: int) | Silent

  type Table = map<string, DOH>

  /** What one operation means to a finite map.  A null object given to Setattr removes the key; Duplicate goes on with
      the copy. */
  ghost function Effect(m: Table, op: Op): Table {
    match op
    case Set(k, Some(obj)) => m[k := obj]
    case Set(k, None) => m - {k}
    case Get(_) => m
    case Del(k) => m - {k}
    case Wipe => map[]
    case Duplicate => m
  }

  ghost function Reply(m: Table, op: Op): Answer {
    match op
    case Set(k, _) => Replaced(if k in m then 1 else 0)
    case Get(k) => Found(if k in m then Some(m[k]) else None)
    case Del(k) => Removal(if k in m then 1 else 0)
    case Wipe => Silent
    case Duplicate => Silent
  }

  ghost function After(m: Table, ops: seq<Op>): Table {
    if ops == [] then m else Effect(After(m, ops[..|ops| - 1]), ops[|ops| - 1])
  }

  method Apply(h: Hash, op: Op) returns (h': Hash, answer: Answer)
    requires h.Valid() && h.Sized()
    modifies h.Repr()
    ensures h'.Valid() && h'.Sized() && fresh(h'.Repr() - old(h.Repr()))
    ensures h'.Map() == Effect(old(h.Map()), op) && answer == Reply(old(h.Map()), op)
  {
    hide HashOf, Shape, NextMap, Hash.Map;
    h' := h;
    match op {
      case Set(k, obj) =>
        var r := h.Setattr(k, obj);
        answer := Replaced(r);
      case Get(k) =>
        var obj := h.Getattr(k);
        answer := Found(obj);
      case Del(k) =>
        var r, _ := h.Delattr(k);
        answer := Removal(r);
      case Wipe =>
        h.Clear();
        answer := Silent;
      case Duplicate =>
        h' := h.Copy();
        answer := Silent;
    }
  }

  /** The table started by NewHash and taken through any operations answers each of them as the map does. */
  method RunOps(ops: seq<Op>) returns (h: Hash, answers: seq<Answer>)
    ensures h.Valid() && h.Sized() && h.Map() == After(map[], ops)
    ensures |answers| == |ops| && forall i :: 0 <= i < |ops| ==> answers[i] == Reply(After(map[], ops[..i]), ops[i])
  {
    hide After, Effect, Reply, HashOf, Shape, NextMap, Hash.Valid, Hash.Map, Hash.Sized;
    h := new Hash();
    answers := [];
    AfterNone(map[]);
    for i := 0 to |ops|
      invariant h.Valid() && h.Sized() && fresh(h.Repr()) && h.Map() == After(map[], ops[..i])
      invariant |answers| == i && forall j :: 0 <= j < i ==> answers[j] == Reply(After(map[], ops[..j]), ops[j])
    {
      var answer;
      h, answer := Apply(h, ops[i]);
      answers := answers + [answer];
      AfterStep(map[], ops, i);
    }
    assert ops[..|ops|] == ops;
  }

  lemma AfterNone(m: Table)
    ensures After(m, []) == m
  {
  }

  lemma AfterStep(m: Table, ops: seq<Op>, i: nat)
    requires i < |ops|
    ensures After(m, ops[..i + 1]) == Effect(After(m, ops[..i]), ops[i])
  {
    assert ops[..i + 1][..i] == ops[..i];
  }
}
