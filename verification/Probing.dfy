/** Linear probing over a circular table, as facts about its contents.

    A table is a sequence of items with a parallel sequence saying which slots are
    empty, and `hash` sends a key to its home slot. */
module Probing {

  // A SHA-256 fingerprint, read as a 256-bit number; 0 is the all-zero digest.
  const KEY_LIMIT: nat :=
    0x1_0000_0000_0000_0000_0000_0000_0000_0000_0000_0000_0000_0000_0000_0000_0000_0000
  type Key = k: int | 0 <= k < KEY_LIMIT

  // What the index stores under a fingerprint: where its content lives.
  datatype Entry = Entry(size: nat, pages: seq<nat>)
  datatype Item = Item(key: Key, entry: Entry)

  // What zero-filled memory holds.
  const ZERO_ITEM := Item(0, Entry(0, []))

  type Hash = Key -> nat

  /** `p` lies on the circular walk that starts at `a` and stops at `b`. */
  predicate Between(a: nat, p: nat, b: nat)
  {
    if a <= b then a <= p <= b else a <= p || p <= b
  }

  /** How many steps the circular walk from `a` takes to arrive at `p`. */
  function Steps(a: nat, p: nat, n: nat): (d: int)
    requires a < n && p < n
    ensures 0 <= d < n
  {
    if a <= p then p - a else p + n - a
  }

  ghost predicate HashInto(hash: Hash, n: nat)
  {
    forall k: Key :: hash(k) < n
  }

  /** Every slot on the walk from `home` to `i` is occupied. */
  ghost predicate Reachable(empty: seq<bool>, home: nat, i: nat)
  {
    forall p :: 0 <= p < |empty| && Between(home, p, i) ==> !empty[p]
  }

  /** The representation invariant of the table. */
  ghost predicate WellFormed(hash: Hash, items: seq<Item>, empty: seq<bool>)
  {
    && |items| == |empty|
    && HashInto(hash, |items|)
    && (forall i :: 0 <= i < |items| && empty[i] ==> items[i] == ZERO_ITEM)
    && (forall i :: 0 <= i < |items| && !empty[i] ==>
          items[i].key != 0 && Reachable(empty, hash(items[i].key), i))
    && (forall i, j :: 0 <= i < j < |items| && !empty[i] && !empty[j] ==> items[i].key != items[j].key)
  }

  /** Slot `i` holds key `k`. */
  predicate Holds(items: seq<Item>, empty: seq<bool>, i: nat, k: Key)
  {
    i < |items| == |empty| && !empty[i] && items[i].key == k
  }

  /** The occupied slots hold exactly the bindings of `m`. */
  ghost predicate Represents(items: seq<Item>, empty: seq<bool>, m: map<Key, Entry>)
  {
    && |items| == |empty|
    && (forall i :: 0 <= i < |items| && !empty[i] ==> items[i].key in m && m[items[i].key] == items[i].entry)
    && (forall k :: k in m ==> exists i :: Holds(items, empty, i, k))
  }

  ghost function Occupied(empty: seq<bool>): set<nat>
  {
    set i: nat | i < |empty| && !empty[i]
  }

  /** `r` is the first empty slot at or circularly after `start`, or the table size when there is none. */
  ghost predicate IsNextEmpty(empty: seq<bool>, start: nat, r: nat)
  {
    if r < |empty| then
      empty[r] && forall p :: 0 <= p < |empty| && Between(start, p, r) && p != r ==> !empty[p]
    else
      r == |empty| && forall p :: 0 <= p < |empty| ==> !empty[p]
  }

  lemma NextEmptyUnique(empty: seq<bool>, start: nat, r: nat, r': nat)
    requires start < |empty|
    requires IsNextEmpty(empty, start, r) && IsNextEmpty(empty, start, r')
    ensures r == r'
  {
    if r < |empty| && r' < |empty| {
      assert Between(start, r, r') || Between(start, r', r);
    }
  }

  // ---- counting ----

  function Upto(n: nat): (s: set<nat>)
    ensures |s| == n
    ensures forall i :: i in s <==> 0 <= i < n
  {
    if n == 0 then {} else Upto(n - 1) + {n - 1}
  }

  lemma OccupiedBound(empty: seq<bool>)
    ensures |Occupied(empty)| <= |empty|
    ensures |Occupied(empty)| == |empty| <==> forall p :: 0 <= p < |empty| ==> !empty[p]
  {
    var all := Upto(|empty|);
    SubsetSize(Occupied(empty), all);
    if |Occupied(empty)| == |empty| {
      forall p | 0 <= p < |empty| ensures !empty[p] {
        if empty[p] {
          SubsetSize(Occupied(empty), all - {p});
        }
      }
    }
    if forall p :: 0 <= p < |empty| ==> !empty[p] {
      assert Occupied(empty) == all;
    }
  }

  lemma {:induction false} SubsetSize<T>(a: set<T>, b: set<T>)
    requires a <= b
    ensures |a| <= |b|
  {
    if a != {} {
      var x :| x in a;
      SubsetSize(a - {x}, b - {x});
    }
  }

  lemma OccupiedAdd(empty: seq<bool>, i: nat)
    requires i < |empty| && empty[i]
    ensures |Occupied(empty[i := false])| == |Occupied(empty)| + 1
  {
    assert Occupied(empty[i := false]) == Occupied(empty) + {i};
  }

  lemma OccupiedDrop(empty: seq<bool>, i: nat)
    requires i < |empty| && !empty[i]
    ensures |Occupied(empty[i := true])| == |Occupied(empty)| - 1
  {
    assert Occupied(empty) == Occupied(empty[i := true]) + {i};
  }

  // ---- lookup ----

  /** A stored key sits strictly before the first empty slot after its home. */
  lemma StoredBeforeEmpty(hash: Hash, items: seq<Item>, empty: seq<bool>, j: nat, e: nat)
    requires WellFormed(hash, items, empty)
    requires j < |items| && !empty[j]
    requires e < |items| && IsNextEmpty(empty, hash(items[j].key), e)
    ensures Steps(hash(items[j].key), j, |items|) < Steps(hash(items[j].key), e, |items|)
  {
    var k := items[j].key;
    assert !Between(hash(k), e, j);
  }

  // ---- insertion ----

  lemma InsertKeeps(hash: Hash, items: seq<Item>, empty: seq<bool>, m: map<Key, Entry>, it: Item, r: nat)
    requires WellFormed(hash, items, empty) && Represents(items, empty, m)
    requires it.key != 0 && it.key !in m
    requires r < |items| && IsNextEmpty(empty, hash(it.key), r)
    ensures WellFormed(hash, items[r := it], empty[r := false])
    ensures Represents(items[r := it], empty[r := false], m[it.key := it.entry])
  {
    var items', empty' := items[r := it], empty[r := false];
    forall i | 0 <= i < |items'| && !empty'[i]
      ensures items'[i].key != 0 && Reachable(empty', hash(items'[i].key), i)
    {
      if i != r { assert Reachable(empty, hash(items[i].key), i); }
    }
    var m' := m[it.key := it.entry];
    forall k | k in m' ensures exists i :: Holds(items', empty', i, k) {
      if k == it.key {
        assert Holds(items', empty', r, k);
      } else {
        var i :| Holds(items, empty, i, k);
        assert Holds(items', empty', i, k);
      }
    }
  }

  // ---- backward-shift deletion ----

  /** The state of a deletion in progress.  Slot `hole` is to be emptied, although its bit still says
      occupied.  Every other occupied slot is reachable; and, unless it lies in the part of the run that
      is still to be examined, from `cur` up to the empty slot `stop`, its walk avoids the hole. */
  ghost predicate Shifting(hash: Hash, items: seq<Item>, empty: seq<bool>, hole: nat, cur: nat, stop: nat)
  {
    && |items| == |empty| && hole < |items| && cur < |items| && stop < |items|
    && HashInto(hash, |items|)
    && (forall p :: 0 <= p < |items| && Between(hole, p, stop) && p != stop ==> !empty[p])
    && Between(hole, cur, stop) && cur != hole
    && empty[stop]
    && (forall i :: 0 <= i < |items| && empty[i] ==> items[i] == ZERO_ITEM)
    && (forall i :: 0 <= i < |items| && !empty[i] && i != hole ==>
          items[i].key != 0 && Reachable(empty, hash(items[i].key), i))
    && (forall i, j :: 0 <= i < j < |items| && !empty[i] && !empty[j] && i != hole && j != hole ==>
          items[i].key != items[j].key)
    && (forall i :: 0 <= i < |items| && !empty[i] && i != hole && !Between(cur, i, stop) ==>
          !Between(hash(items[i].key), hole, i))
  }

  /** The slots other than the hole hold exactly the bindings of `m`. */
  ghost predicate RepresentsBut(items: seq<Item>, empty: seq<bool>, hole: nat, m: map<Key, Entry>)
  {
    && |items| == |empty|
    && (forall i :: 0 <= i < |items| && !empty[i] && i != hole ==>
          items[i].key in m && m[items[i].key] == items[i].entry)
    && (forall k :: k in m ==> exists i :: Holds(items, empty, i, k) && i != hole)
  }

  /** The source's test for an item that an emptied `hole` would cut off from its home. */
  predicate MustMove(home: nat, hole: nat, cur: nat)
  {
    || (cur > hole && (home <= hole || home > cur))
    || (cur < hole && home <= hole && home > cur)
  }

  function After(i: nat, n: nat): (r: nat)
    requires i < n
    ensures r < n
  {
    if i + 1 == n then 0 else i + 1
  }

  lemma AfterIsMod(i: nat, n: nat)
    requires i < n
    ensures After(i, n) == (i + 1) % n
  {
  }

  lemma MustMoveMeaning(home: nat, hole: nat, cur: nat)
    requires cur != hole
    ensures MustMove(home, hole, cur) <==> Between(home, hole, cur)
  {
  }

  lemma ShiftStart(hash: Hash, items: seq<Item>, empty: seq<bool>, m: map<Key, Entry>, hole: nat, stop: nat)
    requires WellFormed(hash, items, empty) && Represents(items, empty, m)
    requires hole < |items| && !empty[hole]
    requires stop < |items| && IsNextEmpty(empty, hole, stop)
    ensures Shifting(hash, items, empty, hole, After(hole, |items|), stop)
    ensures RepresentsBut(items, empty, hole, m - {items[hole].key})
  {
    var n := |items|;
    forall i | 0 <= i < n && !empty[i] && i != hole && !Between(After(hole, n), i, stop)
      ensures !Between(hash(items[i].key), hole, i)
    {
      assert Reachable(empty, hash(items[i].key), i);
    }
    forall k | k in m - {items[hole].key} ensures exists i :: Holds(items, empty, i, k) && i != hole {
      var i :| Holds(items, empty, i, k);
    }
  }

  /** Stepping over an item that can stay. */
  lemma ShiftSkip(hash: Hash, items: seq<Item>, empty: seq<bool>, hole: nat, cur: nat, stop: nat)
    requires Shifting(hash, items, empty, hole, cur, stop) && cur != stop
    requires !MustMove(hash(items[cur].key), hole, cur)
    ensures Shifting(hash, items, empty, hole, After(cur, |items|), stop)
  {
    MustMoveMeaning(hash(items[cur].key), hole, cur);
  }

  /** Moving an item into the hole: its old slot becomes the hole. */
  lemma ShiftMove(hash: Hash, items: seq<Item>, empty: seq<bool>, hole: nat, cur: nat, stop: nat, m: map<Key, Entry>)
    requires Shifting(hash, items, empty, hole, cur, stop) && cur != stop
    requires RepresentsBut(items, empty, hole, m)
    requires MustMove(hash(items[cur].key), hole, cur)
    ensures Shifting(hash, items[hole := items[cur]], empty, cur, After(cur, |items|), stop)
    ensures RepresentsBut(items[hole := items[cur]], empty, cur, m)
  {
    var n := |items|;
    var items' := items[hole := items[cur]];
    forall i | 0 <= i < n && !empty[i] && i != cur
      ensures items'[i].key != 0 && Reachable(empty, hash(items'[i].key), i)
      ensures !Between(After(cur, n), i, stop) ==> !Between(hash(items'[i].key), cur, i)
    {
      ShiftMoveReach(hash, items, empty, hole, cur, stop, i);
    }
    ShiftMoveMap(items, empty, hole, cur, m);
  }

  lemma ShiftMoveReach(hash: Hash, items: seq<Item>, empty: seq<bool>, hole: nat, cur: nat, stop: nat, i: nat)
    requires Shifting(hash, items, empty, hole, cur, stop) && cur != stop
    requires MustMove(hash(items[cur].key), hole, cur)
    requires i < |items| && !empty[i] && i != cur
    ensures var k := (if i == hole then items[cur] else items[i]).key;
            && k != 0 && Reachable(empty, hash(k), i)
            && (!Between(After(cur, |items|), i, stop) ==> !Between(hash(k), cur, i))
  {
    MustMoveMeaning(hash(items[cur].key), hole, cur);
    var j := if i == hole then cur else i;
    assert Reachable(empty, hash(items[j].key), j);
  }

  lemma ShiftMoveMap(items: seq<Item>, empty: seq<bool>, hole: nat, cur: nat, m: map<Key, Entry>)
    requires RepresentsBut(items, empty, hole, m) && hole < |items| && cur < |items| && cur != hole
    requires !empty[cur] && !empty[hole]
    ensures RepresentsBut(items[hole := items[cur]], empty, cur, m)
  {
    var items' := items[hole := items[cur]];
    forall k | k in m ensures exists i :: Holds(items', empty, i, k) && i != cur {
      var i :| Holds(items, empty, i, k) && i != hole;
      assert Holds(items', empty, if i == cur then hole else i, k);
    }
  }

  /** Once the run is exhausted, emptying the hole restores the invariant. */
  lemma ShiftEnd(hash: Hash, items: seq<Item>, empty: seq<bool>, hole: nat, stop: nat, m: map<Key, Entry>)
    requires Shifting(hash, items, empty, hole, stop, stop)
    requires RepresentsBut(items, empty, hole, m)
    ensures WellFormed(hash, items[hole := ZERO_ITEM], empty[hole := true])
    ensures Represents(items[hole := ZERO_ITEM], empty[hole := true], m)
  {
    var items', empty' := items[hole := ZERO_ITEM], empty[hole := true];
    forall i | 0 <= i < |items'| && !empty'[i]
      ensures items'[i].key != 0 && Reachable(empty', hash(items'[i].key), i)
    {
      assert Reachable(empty, hash(items[i].key), i);
    }
    forall k | k in m ensures exists i :: Holds(items', empty', i, k) {
      var i :| Holds(items, empty, i, k) && i != hole;
      assert Holds(items', empty', i, k);
    }
  }

  /** The walk behind a hole: `n` slots from `cur` on are looked at, an item that would be cut off moves into
      the hole, and its slot becomes the hole.  The result is the table and the last hole. */
  function Walk(hash: Hash, items: seq<Item>, hole: nat, cur: nat, n: nat): (r: (seq<Item>, nat))
    requires hole < |items| && cur < |items|
    ensures |r.0| == |items| && r.1 < |items|
    decreases n
  {
    if n == 0 then (items, hole)
    else if MustMove(hash(items[cur].key), hole, cur)
    then Walk(hash, items[hole := items[cur]], cur, After(cur, |items|), n - 1)
    else Walk(hash, items, hole, After(cur, |items|), n - 1)
  }

  /** With an empty slot at the end of the walk, the walk keeps the state of the deletion. */
  lemma {:induction false} WalkShifts(hash: Hash, items: seq<Item>, empty: seq<bool>, hole: nat, cur: nat, stop: nat,
                                      n: nat, m: map<Key, Entry>)
    requires Shifting(hash, items, empty, hole, cur, stop) && RepresentsBut(items, empty, hole, m)
    requires n == Steps(cur, stop, |items|)
    ensures var (items', hole') := Walk(hash, items, hole, cur, n);
            Shifting(hash, items', empty, hole', stop, stop) && RepresentsBut(items', empty, hole', m)
    decreases n
  {
    hide Shifting, RepresentsBut, MustMove;
    ShiftIndices(hash, items, empty, hole, cur, stop);
    if n > 0 {
      if MustMove(hash(items[cur].key), hole, cur) {
        ShiftMove(hash, items, empty, hole, cur, stop, m);
        WalkShifts(hash, items[hole := items[cur]], empty, cur, After(cur, |items|), stop, n - 1, m);
      } else {
        ShiftSkip(hash, items, empty, hole, cur, stop);
        WalkShifts(hash, items, empty, hole, After(cur, |items|), stop, n - 1, m);
      }
    }
  }

  lemma ShiftIndices(hash: Hash, items: seq<Item>, empty: seq<bool>, hole: nat, cur: nat, stop: nat)
    requires Shifting(hash, items, empty, hole, cur, stop)
    ensures hole < |items| && cur < |items| && stop < |items| && cur != hole
  {
  }

  // ---- deletion in a full table, whose walk ends with the array ----

  /** No item lies before its home, so that none was wrapped around the end of the array. */
  ghost predicate NoneBeforeHome(hash: Hash, items: seq<Item>)
  {
    forall i :: 0 <= i < |items| ==> hash(items[i].key) <= i
  }

  /** The state of such a deletion: the slots between the hole and `cur` do not depend on the hole. */
  ghost predicate FullShifting(hash: Hash, items: seq<Item>, hole: nat, cur: nat)
  {
    && hole < cur <= |items| && HashInto(hash, |items|)
    && (forall i :: 0 <= i < |items| && i != hole ==> items[i].key != 0 && hash(items[i].key) <= i)
    && (forall i, j :: 0 <= i < j < |items| && i != hole && j != hole ==> items[i].key != items[j].key)
    && (forall i :: hole < i < cur ==> hole < hash(items[i].key))
  }

  lemma {:induction false} WalkFull(hash: Hash, items: seq<Item>, empty: seq<bool>, hole: nat, cur: nat, at: nat, n: nat,
                                    m: map<Key, Entry>)
    requires FullShifting(hash, items, hole, cur) && RepresentsBut(items, empty, hole, m)
    requires |empty| == |items| && forall i :: 0 <= i < |empty| ==> !empty[i]
    requires n == |items| - cur && at < |items| && (n > 0 ==> at == cur)
    ensures var (items', hole') := Walk(hash, items, hole, at, n);
            FullShifting(hash, items', hole', |items|) && RepresentsBut(items', empty, hole', m)
    decreases n
  {
    hide RepresentsBut;
    if n > 0 {
      var next := After(cur, |items|);
      assert n - 1 > 0 ==> next == cur + 1;
      if MustMove(hash(items[cur].key), hole, cur) {
        ShiftMoveMap(items, empty, hole, cur, m);
        WalkFull(hash, items[hole := items[cur]], empty, cur, cur + 1, next, n - 1, m);
      } else {
        WalkFull(hash, items, empty, hole, cur + 1, next, n - 1, m);
      }
    }
  }

  lemma FullStart(hash: Hash, items: seq<Item>, empty: seq<bool>, m: map<Key, Entry>, hole: nat)
    requires WellFormed(hash, items, empty) && Represents(items, empty, m) && NoneBeforeHome(hash, items)
    requires hole < |items| && forall i :: 0 <= i < |empty| ==> !empty[i]
    ensures FullShifting(hash, items, hole, hole + 1)
    ensures RepresentsBut(items, empty, hole, m - {items[hole].key})
  {
    forall k | k in m - {items[hole].key} ensures exists i :: Holds(items, empty, i, k) && i != hole {
      var i :| Holds(items, empty, i, k);
    }
  }

  lemma FullEnd(hash: Hash, items: seq<Item>, empty: seq<bool>, hole: nat, m: map<Key, Entry>)
    requires FullShifting(hash, items, hole, |items|) && RepresentsBut(items, empty, hole, m)
    requires |empty| == |items| && forall i :: 0 <= i < |empty| ==> !empty[i]
    ensures WellFormed(hash, items[hole := ZERO_ITEM], empty[hole := true])
    ensures Represents(items[hole := ZERO_ITEM], empty[hole := true], m)
  {
    var items', empty' := items[hole := ZERO_ITEM], empty[hole := true];
    forall k | k in m ensures exists i :: Holds(items', empty', i, k) {
      var i :| Holds(items, empty, i, k) && i != hole;
      assert Holds(items', empty', i, k);
    }
  }
}
