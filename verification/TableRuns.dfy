/** Whole runs of the index against the finite map it stands for. */
module TableRuns {
  import opened Probing
  import opened FingerprintTables

  datatype Op = Put(key: Key, entry: Entry) | Get(key: Key) | Drop(key: Key)
  datatype Answer = Done | NotFound | Found(entry: Entry)

  /** The source's demands: nonzero keys, no second insert of a key, and never the last empty slot. */
  predicate Allowed(m: map<Key, Entry>, op: Op, size: nat)
  {
    op.key != 0 && (op.Put? ==> op.key !in m && |m| + 1 < size)
  }

  function Update(m: map<Key, Entry>, op: Op): map<Key, Entry>
  {
    match op
    case Put(k, e) => m[k := e]
    case Get(_) => m
    case Drop(k) => m - {k}
  }

  function Reply(m: map<Key, Entry>, op: Op): Answer
  {
    match op
    case Put(_, _) => Done
    case _ => if op.key in m then Found(m[op.key]) else NotFound
  }

  predicate AllAllowed(m: map<Key, Entry>, ops: seq<Op>, size: nat)
    decreases |ops|
  {
    ops == [] || (Allowed(m, ops[0], size) && AllAllowed(Update(m, ops[0]), ops[1..], size))
  }

  /** What a finite map would answer. */
  function Replies(m: map<Key, Entry>, ops: seq<Op>): seq<Answer>
    decreases |ops|
  {
    if ops == [] then [] else [Reply(m, ops[0])] + Replies(Update(m, ops[0]), ops[1..])
  }

  /** One operation on the table, answered as the map answers it. */
  method Perform(t: FingerprintTable, op: Op) returns (answer: Answer)
    requires t.Valid() && t.cnt < t.size && Allowed(t.model, op, t.size)
    modifies t, t.words, t.items
    ensures t.Valid() && t.cnt < t.size
    ensures t.model == Update(old(t.model), op) && answer == Reply(old(t.model), op)
  {
    hide TableOK, FindSpec;
    ghost var m := t.model;
    TableFacts(t.size, t.hash, t.items[..], t.words[..], t.cnt, t.model, op.key);
    match op {
      case Put(k, e) =>
        var ok, at := t.Insert(k, e);
        answer := Done;
      case Get(k) =>
        var r, e := t.Find(k, ZERO_ITEM.entry);
        FindUse(t.size, t.hash, t.items[..], t.words[..], t.cnt, t.model, k, r);
        answer := if r < t.size then Found(e) else NotFound;
      case Drop(k) =>
        var ok, e, at, nextEmpty := t.Remove(k, ZERO_ITEM.entry);
        answer := if ok then Found(e) else NotFound;
    }
    TableFacts(t.size, t.hash, t.items[..], t.words[..], t.cnt, t.model, op.key);
    UpdateSize(m, op);
  }

  lemma UpdateSize(m: map<Key, Entry>, op: Op)
    ensures op.Put? && op.key !in m ==> |Update(m, op)| == |m| + 1
    ensures !op.Put? ==> |Update(m, op)| <= |m|
  {
    if op.Drop? {
      if op.key in m { RemoveSize(m, op.key); } else { assert m - {op.key} == m; }
    }
  }

  /** Every run of the table from its initial state gives the answers of the map. */
  method Run(size: nat, hash: Hash, ops: seq<Op>) returns (answers: seq<Answer>)
    requires size > 1 && HashInto(hash, size)
    requires AllAllowed(map[], ops, size)
    ensures answers == Replies(map[], ops)
  {
    hide TableOK, Update, Reply, HashInto;
    answers := [];
    var t := new FingerprintTable(size, hash);
    for i := 0 to |ops|
      invariant t.Valid() && t.size == size && t.cnt < size
      invariant fresh(t) && fresh(t.words) && fresh(t.items)
      invariant AllAllowed(t.model, ops[i..], size)
      invariant answers + Replies(t.model, ops[i..]) == Replies(map[], ops)
    {
      assert ops[i..][0] == ops[i] && ops[i..][1..] == ops[i + 1..];
      var a := Perform(t, ops[i]);
      answers := answers + [a];
    }
  }

  // ---- the answers of a run, from its operations ----

  /** Operation `j` put the key, and up to operation `i` it was neither dropped nor put again. */
  predicate PutLast(ops: seq<Op>, j: nat, i: nat, k: Key)
    requires j < i <= |ops|
  {
    ops[j].Put? && ops[j].key == k && forall n :: j < n < i && ops[n].key == k ==> ops[n].Get?
  }

  /** A put is done; a lookup or a removal finds what was put last, unless it was dropped since. */
  ghost predicate RightReply(ops: seq<Op>, answers: seq<Answer>, i: nat)
    requires |answers| == |ops| && i < |ops|
  {
    if ops[i].Put? then answers[i] == Done
    else if exists j :: 0 <= j < i && PutLast(ops, j, i, ops[i].key) then
      exists j :: 0 <= j < i && PutLast(ops, j, i, ops[i].key) && answers[i] == Found(ops[j].entry)
    else answers[i] == NotFound
  }

  /** The map after `i` operations. */
  function UpdateAll(m: map<Key, Entry>, ops: seq<Op>, i: nat): map<Key, Entry>
    requires i <= |ops|
  {
    if i == 0 then m else Update(UpdateAll(m, ops, i - 1), ops[i - 1])
  }

  lemma {:induction false} UpdateFront(m: map<Key, Entry>, ops: seq<Op>, i: nat)
    requires 1 <= i <= |ops|
    ensures UpdateAll(m, ops, i) == UpdateAll(Update(m, ops[0]), ops[1..], i - 1)
  {
    hide Update;
    if i > 1 { UpdateFront(m, ops, i - 1); }
  }

  lemma {:induction false} RepliesAt(m: map<Key, Entry>, ops: seq<Op>, i: nat)
    requires i < |ops|
    ensures |Replies(m, ops)| == |ops| && Replies(m, ops)[i] == Reply(UpdateAll(m, ops, i), ops[i])
    decreases |ops|
  {
    hide Update, Reply;
    if i > 0 {
      RepliesAt(Update(m, ops[0]), ops[1..], i - 1);
      UpdateFront(m, ops, i);
    } else if |ops| > 1 {
      RepliesAt(Update(m, ops[0]), ops[1..], 0);
    }
  }

  /** From the empty map, a key is bound exactly if it was put and not dropped since, and to what was put last. */
  lemma {:induction false} BoundTo(ops: seq<Op>, i: nat, k: Key)
    requires i <= |ops|
    ensures k in UpdateAll(map[], ops, i) <==> exists j :: 0 <= j < i && PutLast(ops, j, i, k)
    ensures forall j :: 0 <= j < i && PutLast(ops, j, i, k) ==>
              k in UpdateAll(map[], ops, i) && UpdateAll(map[], ops, i)[k] == ops[j].entry
  {
    if i > 0 {
      BoundTo(ops, i - 1, k);
      var op := ops[i - 1];
      forall j | 0 <= j < i - 1 ensures PutLast(ops, j, i, k) <==> PutLast(ops, j, i - 1, k) && (op.key == k ==> op.Get?) {
      }
      if op.Put? && op.key == k {
        assert PutLast(ops, i - 1, i, k);
      } else if k in UpdateAll(map[], ops, i) {
        var j :| 0 <= j < i - 1 && PutLast(ops, j, i - 1, k);
        assert PutLast(ops, j, i, k);
      }
    }
  }

  /** The answers of a finite map in every run are the right ones, and there are no others. */
  lemma RepliesAreTheRule(ops: seq<Op>, answers: seq<Answer>)
    requires |answers| == |ops|
    ensures (forall i :: 0 <= i < |ops| ==> RightReply(ops, answers, i)) <==> answers == Replies(map[], ops)
  {
    if ops == [] {
      assert answers == [];
    } else {
      RepliesAt(map[], ops, 0);
    }
    forall i | 0 <= i < |ops| ensures RightReply(ops, answers, i) <==> answers[i] == Replies(map[], ops)[i] {
      RepliesAt(map[], ops, i);
      BoundTo(ops, i, ops[i].key);
      hide UpdateAll, PutLast;
    }
  }
}
