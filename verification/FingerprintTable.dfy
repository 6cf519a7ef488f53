/** The open-addressing index from fingerprints to entries (fingerprint_table.c). */
module FingerprintTables {
  import opened Words
  import opened Probing
  import opened EmptySearch

  /** The invariant tying the stored bytes to the finite map they stand for. */
  ghost predicate TableOK(size: nat, hash: Hash, items: seq<Item>, ws: seq<Word>, cnt: nat, m: map<Key, Entry>)
  {
    && |items| == size > 0
    && Covers(ws, size)
    && WellFormed(hash, items, Empties(ws, size))
    && Represents(items, Empties(ws, size), m)
    && cnt == |m| == |Occupied(Empties(ws, size))|
  }

  function ClearBit(ws: seq<Word>, i: nat): seq<Word>
    requires i / WORD_BITS < |ws|
  {
    ws[i / WORD_BITS := And(ws[i / WORD_BITS], Not(OneBit(i % WORD_BITS)))]
  }

  function SetBit(ws: seq<Word>, i: nat): seq<Word>
    requires i / WORD_BITS < |ws|
  {
    ws[i / WORD_BITS := Or(ws[i / WORD_BITS], OneBit(i % WORD_BITS))]
  }

  lemma InitOK(size: nat, hash: Hash, items: seq<Item>, ws: seq<Word>)
    requires size > 0 && HashInto(hash, size) && WordCount(size) <= |ws|
    requires |items| == size && forall i :: 0 <= i < size ==> items[i] == ZERO_ITEM
    requires forall u :: 0 <= u < WordCount(size) - 1 ==> ws[u] == Ones()
    requires ws[WordCount(size) - 1] == if size % WORD_BITS == 0 then Ones() else LowOnes(size % WORD_BITS)
    ensures TableOK(size, hash, items, ws, 0, map[])
  {
    forall p | 0 <= p < size ensures Empties(ws, size)[p] {
      assert ws[p / WORD_BITS] == Ones() || p / WORD_BITS == WordCount(size) - 1;
    }
    assert Occupied(Empties(ws, size)) == {};
  }

  lemma InsertOK(size: nat, hash: Hash, items: seq<Item>, ws: seq<Word>, cnt: nat, m: map<Key, Entry>, it: Item, at: nat)
    requires TableOK(size, hash, items, ws, cnt, m)
    requires it.key != 0 && it.key !in m && at < size
    requires IsNextEmpty(Empties(ws, size), hash(it.key), at)
    ensures TableOK(size, hash, items[at := it], ClearBit(ws, at), cnt + 1, m[it.key := it.entry])
  {
    var es := Empties(ws, size);
    assert Empties(ClearBit(ws, at), size) == es[at := false];
    InsertKeeps(hash, items, es, m, it, at);
    OccupiedAdd(es, at);
  }

  lemma SetBitEmpties(ws: seq<Word>, size: nat, i: nat)
    requires Covers(ws, size) && i < size
    ensures WordCount(size) <= |ws| && i / WORD_BITS < |ws| && Covers(SetBit(ws, i), size)
    ensures Empties(SetBit(ws, i), size) == Empties(ws, size)[i := true]
  {
  }

  /** A table holding fewer bindings than slots has an empty slot. */
  lemma NextEmptyExists(size: nat, hash: Hash, items: seq<Item>, ws: seq<Word>, cnt: nat, m: map<Key, Entry>,
                        start: nat, r: nat)
    requires TableOK(size, hash, items, ws, cnt, m)
    requires IsNextEmpty(Empties(ws, size), start, r)
    ensures cnt <= size
    ensures r < size <==> cnt < size
  {
    OccupiedBound(Empties(ws, size));
  }

  lemma TableFacts(size: nat, hash: Hash, items: seq<Item>, ws: seq<Word>, cnt: nat, m: map<Key, Entry>, k: Key)
    requires TableOK(size, hash, items, ws, cnt, m)
    ensures Covers(ws, size) && hash(k) < size && cnt == |m|
  {
  }

  // items_to_check of a lookup
  function ProbeLength(size: nat, home: nat, nextEmpty: nat): (n: int)
  {
    if home <= nextEmpty then nextEmpty - home else (size - home) + nextEmpty + 1
  }

  /** What a lookup of `k` that returns `r` has to do with the table. */
  ghost predicate FindSpec(size: nat, hash: Hash, items: seq<Item>, ws: seq<Word>, cnt: nat, m: map<Key, Entry>,
                           k: Key, r: nat)
    requires TableOK(size, hash, items, ws, cnt, m)
  {
    var es := Empties(ws, size);
    && (k != 0 && cnt < size ==> (r < size <==> k in m))
    && (k != 0 && cnt == size ==> (r < size <==> exists j :: hash(k) <= j && Holds(items, es, j, k)))
    && (k == 0 ==> (r < size <==> exists e: nat :: e < hash(k) && IsNextEmpty(es, hash(k), e)))
    && (k == 0 && r < size ==> r < hash(k) && IsNextEmpty(es, hash(k), r) && items[r] == ZERO_ITEM)
    && (k != 0 && r < size ==> Holds(items, es, r, k) && k in m && m[k] == items[r].entry)
  }

  lemma FindHit(size: nat, hash: Hash, items: seq<Item>, ws: seq<Word>, cnt: nat, m: map<Key, Entry>,
                k: Key, cur: nat, nextEmpty: nat)
    requires TableOK(size, hash, items, ws, cnt, m)
    requires IsNextEmpty(Empties(ws, size), hash(k), nextEmpty)
    requires cur < size && items[cur].key == k
    requires Steps(hash(k), cur, size) < ProbeLength(size, hash(k), nextEmpty)
    ensures FindSpec(size, hash, items, ws, cnt, m, k, cur)
  {
    NextEmptyExists(size, hash, items, ws, cnt, m, hash(k), nextEmpty);
    assert k != 0 ==> Holds(items, Empties(ws, size), cur, k);
  }

  lemma FindMiss(size: nat, hash: Hash, items: seq<Item>, ws: seq<Word>, cnt: nat, m: map<Key, Entry>,
                 k: Key, nextEmpty: nat)
    requires TableOK(size, hash, items, ws, cnt, m)
    requires IsNextEmpty(Empties(ws, size), hash(k), nextEmpty)
    requires forall p :: 0 <= p < size && Steps(hash(k), p, size) < ProbeLength(size, hash(k), nextEmpty) ==>
               items[p].key != k
    ensures FindSpec(size, hash, items, ws, cnt, m, k, size)
  {
    NextEmptyExists(size, hash, items, ws, cnt, m, hash(k), nextEmpty);
    var es := Empties(ws, size);
    forall e: nat | e < hash(k) && IsNextEmpty(es, hash(k), e) ensures e == nextEmpty {
      NextEmptyUnique(es, hash(k), e, nextEmpty);
    }
    forall j | 0 <= j < size && !es[j] && hash(items[j].key) == hash(k) && cnt < size
      ensures Steps(hash(k), j, size) < ProbeLength(size, hash(k), nextEmpty)
    {
      StoredBeforeEmpty(hash, items, es, j, nextEmpty);
    }
  }

  lemma FindUse(size: nat, hash: Hash, items: seq<Item>, ws: seq<Word>, cnt: nat, m: map<Key, Entry>, k: Key, r: nat)
    requires TableOK(size, hash, items, ws, cnt, m)
    requires r <= size && FindSpec(size, hash, items, ws, cnt, m, k, r)
    ensures k != 0 && (cnt < size || NoneBeforeHome(hash, items)) ==> (r < size <==> k in m)
    ensures k != 0 && r < size ==> items[r].key == k && k in m && items[r].entry == m[k]
    ensures k != 0 && r < size ==> Holds(items, Empties(ws, size), r, k)
    ensures r < size ==> cnt > 0
    ensures k == 0 && r < size ==> items[r].entry == ZERO_ITEM.entry
    ensures k !in m ==> m - {k} == m
  {
    var es := Empties(ws, size);
    OccupiedBound(es);
    if k in m {
      var j :| Holds(items, es, j, k);
    }
    if k == 0 && r < size {
      assert Between(hash(k), hash(k), r);
      assert hash(k) in Occupied(es);
    }
  }

  lemma RemoveSize(m: map<Key, Entry>, k: Key)
    requires k in m
    ensures |m| == |m - {k}| + 1
  {
    assert m == (m - {k})[k := m[k]];
  }

  // items_to_check behind an emptied slot
  function WalkLength(size: nat, hole: nat, nextEmpty: nat): (n: int)
  {
    if hole < nextEmpty then nextEmpty - hole - 1 else (size - hole - 1) + nextEmpty
  }

  /** The items and the last hole that a removal from slot `at` leaves, when `nextEmpty` is the next empty slot. */
  function Closed(hash: Hash, items: seq<Item>, at: nat, nextEmpty: nat): (r: (seq<Item>, nat))
    requires at < |items|
    ensures |r.0| == |items| && r.1 < |items|
  {
    Walk(hash, items, at, After(at, |items|), WalkLength(|items|, at, nextEmpty))
  }

  /** Removing the item in slot `at` keeps the invariant and drops its binding, when an empty slot ends the
      walk or no item was wrapped around the end of the array. */
  lemma RemovalOK(size: nat, hash: Hash, items: seq<Item>, ws: seq<Word>, cnt: nat, m: map<Key, Entry>, at: nat,
                  nextEmpty: nat)
    requires TableOK(size, hash, items, ws, cnt, m)
    requires at < size && Holds(items, Empties(ws, size), at, items[at].key)
    requires IsNextEmpty(Empties(ws, size), at, nextEmpty)
    requires cnt < size || NoneBeforeHome(hash, items)
    ensures Covers(ws, size) && cnt > 0
    ensures var (items', hole) := Closed(hash, items, at, nextEmpty);
            TableOK(size, hash, items'[hole := ZERO_ITEM], SetBit(ws, hole), cnt - 1, m - {items[at].key})
  {
    hide WellFormed, Represents, RepresentsBut, Covers, Reachable, Walk, Shifting, FullShifting, NoneBeforeHome;
    SetBitEmpties(ws, size, at);
    var es, m' := Empties(ws, size), m - {items[at].key};
    var (items', hole) := Closed(hash, items, at, nextEmpty);
    NextEmptyExists(size, hash, items, ws, cnt, m, at, nextEmpty);
    HeldKey(hash, items, es, m, at);
    RemoveSize(m, items[at].key);
    if nextEmpty < size {
      ShiftStart(hash, items, es, m, at, nextEmpty);
      ShiftIndices(hash, items, es, at, After(at, size), nextEmpty);
      WalkShifts(hash, items, es, at, After(at, size), nextEmpty, WalkLength(size, at, nextEmpty), m');
      ShiftEnd(hash, items', es, hole, nextEmpty, m');
      StopIsEmpty(hash, items', es, hole, nextEmpty);
    } else {
      FullStart(hash, items, es, m, at);
      WalkFull(hash, items, es, at, at + 1, After(at, size), WalkLength(size, at, nextEmpty), m');
      FullEnd(hash, items', es, hole, m');
    }
    SetBitEmpties(ws, size, hole);
    OccupiedDrop(es, hole);
  }

  lemma HeldKey(hash: Hash, items: seq<Item>, empty: seq<bool>, m: map<Key, Entry>, at: nat)
    requires WellFormed(hash, items, empty) && Represents(items, empty, m)
    requires at < |items| && Holds(items, empty, at, items[at].key)
    ensures items[at].key in m && HashInto(hash, |items|)
  {
  }

  lemma StopIsEmpty(hash: Hash, items: seq<Item>, empty: seq<bool>, hole: nat, stop: nat)
    requires Shifting(hash, items, empty, hole, stop, stop)
    ensures hole < |items| == |empty| && !empty[hole]
  {
  }

  /** What a removal of `k` does, given the slot `at` its lookup returned: the key is found, and the table
      that is left stands for the map without it. */
  ghost predicate RemovalRefines(size: nat, hash: Hash, items: seq<Item>, ws: seq<Word>, cnt: nat,
                                 m: map<Key, Entry>, k: Key, at: nat, nextEmpty: nat)
  {
    && at < |items| && cnt > 0
    && var (items', hole) := Closed(hash, items, at, nextEmpty);
       && hole / WORD_BITS < |ws|
       && TableOK(size, hash, items'[hole := ZERO_ITEM], SetBit(ws, hole), cnt - 1, m - {k})
  }

  /** In a full table every stored key can be removed if and only if no item was wrapped around the end of
      the array. */
  lemma FullRemovalExact(size: nat, hash: Hash, items: seq<Item>, ws: seq<Word>, m: map<Key, Entry>)
    requires TableOK(size, hash, items, ws, size, m)
    ensures (forall k: Key, at: nat :: k in m && at <= size && FindSpec(size, hash, items, ws, size, m, k, at) ==>
               RemovalRefines(size, hash, items, ws, size, m, k, at, size))
            <==> NoneBeforeHome(hash, items)
  {
    hide FindSpec, RemovalRefines, WellFormed, Represents, Closed;
    if NoneBeforeHome(hash, items) {
      forall k: Key, at: nat | k in m && at <= size && FindSpec(size, hash, items, ws, size, m, k, at)
        ensures RemovalRefines(size, hash, items, ws, size, m, k, at, size)
      {
        FullRemoval(size, hash, items, ws, m, k, at);
      }
    } else {
      var i :| 0 <= i < size && i < hash(items[i].key);
      WrappedNotFound(size, hash, items, ws, m, i);
    }
  }

  lemma FullRemoval(size: nat, hash: Hash, items: seq<Item>, ws: seq<Word>, m: map<Key, Entry>, k: Key, at: nat)
    requires TableOK(size, hash, items, ws, size, m) && NoneBeforeHome(hash, items)
    requires k in m && at <= size && FindSpec(size, hash, items, ws, size, m, k, at)
    ensures RemovalRefines(size, hash, items, ws, size, m, k, at, size)
  {
    hide Closed;
    OccupiedBound(Empties(ws, size));
    var j :| Holds(items, Empties(ws, size), j, k);
    RemovalOK(size, hash, items, ws, size, m, at, size);
  }

  /** A key stored before its home is in the map, but a lookup in a full table misses it. */
  lemma WrappedNotFound(size: nat, hash: Hash, items: seq<Item>, ws: seq<Word>, m: map<Key, Entry>, i: nat)
    requires TableOK(size, hash, items, ws, size, m)
    requires i < size && i < hash(items[i].key)
    ensures items[i].key in m && FindSpec(size, hash, items, ws, size, m, items[i].key, size)
    ensures !RemovalRefines(size, hash, items, ws, size, m, items[i].key, size, size)
  {
    OccupiedBound(Empties(ws, size));
  }

  class FingerprintTable {
    const size: nat
    const hash: Hash
    const words: array<Word>    // is_empty_bit_vector
    const items: array<Item>
    var cnt: nat
    ghost var model: map<Key, Entry>

    ghost predicate Valid()
      reads this, words, items
    {
      && items.Length == size
      && words.Length == size / WORD_BITS + 1
      && TableOK(size, hash, items[..], words[..], cnt, model)
    }

    /** Fresh memory is zero-filled; only the bit vector has to be written. */
    constructor (size: nat, hash: Hash)
      requires size > 0 && HashInto(hash, size)
      ensures Valid() && fresh(words) && fresh(items)
      ensures model == map[] && cnt == 0 && this.size == size && this.hash == hash
    {
      this.size := size;
      this.hash := hash;
      var ws := new Word[size / WORD_BITS + 1](_ => LowOnes(0));
      var its := new Item[size](_ => ZERO_ITEM);
      cnt := 0;
      model := map[];
      var n := WordCount(size);
      for i := 0 to n - 1
        invariant forall j :: 0 <= j < size ==> its[j] == ZERO_ITEM
        invariant forall u :: 0 <= u < i ==> ws[u] == Ones()
      {
        ws[i] := Ones();
      }
      var last := size % WORD_BITS;
      if last == 0 {
        ws[n - 1] := Ones();
      } else {
        ws[n - 1] := LowOnes(last);
      }
      InitOK(size, hash, its[..], ws[..]);
      words, items := ws, its;
    }

    /** Refuses when full; otherwise the key goes to the first empty slot after its home, be it there already
        or not.  For a new nonzero key that adds one binding. */
    method Insert(k: Key, entry: Entry) returns (ok: bool, ghost at: nat)
      requires Valid()
      modifies this, words, items
      ensures ok == (old(cnt) < size)
      ensures !ok ==> unchanged(this) && words[..] == old(words[..]) && items[..] == old(items[..])
      ensures ok ==> at < size && IsNextEmpty(Empties(old(words[..]), size), hash(k), at)
      ensures ok ==> items[..] == old(items[..])[at := Item(k, entry)] && words[..] == ClearBit(old(words[..]), at)
      ensures ok ==> cnt == old(cnt) + 1 && model == old(model)[k := entry]
      ensures !ok || (k != 0 && k !in old(model)) ==> Valid()
    {
      hide TableOK, IsNextEmpty, Empties, Covers;
      if cnt == size {
        return false, size;
      }
      TableFacts(size, hash, items[..], words[..], cnt, model, k);
      var slot := NextEmpty(words, size, hash(k));
      NextEmptyExists(size, hash, items[..], words[..], cnt, model, hash(k), slot);
      if k != 0 && k !in model {
        InsertOK(size, hash, items[..], words[..], cnt, model, Item(k, entry), slot);
      }
      items[slot] := Item(k, entry);
      cnt := cnt + 1;
      words[slot / WORD_BITS] := And(words[slot / WORD_BITS], Not(OneBit(slot % WORD_BITS)));
      model := model[k := entry];
      assert words[..] == ClearBit(old(words[..]), slot);
      assert items[..] == old(items[..])[slot := Item(k, entry)];
      return true, slot;
    }

    /** Probes from the home slot of `k`; `size` means not found, and then `prior` comes back.

        With a slot empty, the search is exact.  In a full table it does not wrap, so it finds just the
        keys stored at or after their home.  The all-zero key is "found" in the extra slot of a
        wrapped probe. */
    method Find(k: Key, prior: Entry) returns (r: nat, entry: Entry)
      requires Valid()
      ensures r <= size
      ensures FindSpec(size, hash, items[..], words[..], cnt, model, k, r)
      ensures entry == if r == size then prior else items[r].entry
    {
      hide TableOK, FindSpec, IsNextEmpty, Covers;
      TableFacts(size, hash, items[..], words[..], cnt, model, k);
      var home := hash(k);
      var nextEmpty := NextEmpty(words, size, home);
      NextEmptyExists(size, hash, items[..], words[..], cnt, model, home, nextEmpty);
      var toCheck := if home <= nextEmpty then nextEmpty - home else (size - home) + nextEmpty + 1;
      var cur: nat := home;
      var i := 0;
      while i < toCheck
        invariant i <= toCheck <= size
        invariant i < toCheck ==> cur < size && Steps(home, cur, size) == i
        invariant forall p :: 0 <= p < size && Steps(home, p, size) < i ==> items[..][p].key != k
      {
        if items[cur].key == k {
          FindHit(size, hash, items[..], words[..], cnt, model, k, cur, nextEmpty);
          return cur, items[cur].entry;
        }
        AfterIsMod(cur, size);
        cur := (cur + 1) % size;
        i := i + 1;
      }
      FindMiss(size, hash, items[..], words[..], cnt, model, k, nextEmpty);
      return size, prior;
    }

    /** Backward-shift deletion of what a lookup of `k` finds, in slot `at`.  It drops the binding of a nonzero
        key when a slot is empty, or when the table is full and no item was wrapped around. */
    method Remove(k: Key, prior: Entry) returns (ok: bool, entry: Entry, ghost at: nat, ghost nextEmpty: nat)
      requires Valid()
      modifies this, words, items
      ensures at <= size && ok == (at < size)
      ensures FindSpec(size, hash, old(items[..]), old(words[..]), old(cnt), old(model), k, at)
      ensures entry == if ok then old(items[..])[at].entry else prior
      ensures !ok ==> unchanged(this) && words[..] == old(words[..]) && items[..] == old(items[..])
      ensures ok ==> IsNextEmpty(Empties(old(words[..]), size), at, nextEmpty)
      ensures ok ==> var (items', hole) := Closed(hash, old(items[..]), at, nextEmpty);
                     && items[..] == items'[hole := ZERO_ITEM]
                     && words[..] == SetBit(old(words[..]), hole) && cnt == old(cnt) - 1
      ensures k != 0 && (old(cnt) < size || NoneBeforeHome(hash, old(items[..]))) ==>
                && Valid() && model == old(model) - {k} && ok == (k in old(model))
                && (ok ==> entry == old(model)[k])
    {
      hide TableOK, FindSpec, IsNextEmpty, Covers, Closed, SetBit, Holds, Empties, NoneBeforeHome;
      TableFacts(size, hash, items[..], words[..], cnt, model, k);
      var found;
      found, entry := Find(k, prior);
      at, nextEmpty := found, size;
      FindUse(size, hash, items[..], words[..], cnt, model, k, found);
      if found == size {
        return false, entry, at, nextEmpty;
      }
      var stop := NextEmpty(words, size, found);
      nextEmpty := stop;
      if k != 0 && (cnt < size || NoneBeforeHome(hash, items[..])) {
        RemovalOK(size, hash, items[..], words[..], cnt, model, found, stop);
      }
      var hole := CloseGap(found, stop);
      Vacate(hole);
      model := model - {k};
      return true, entry, at, nextEmpty;
    }

    /** Clears the slot at the end of the walk and marks it empty. */
    method Vacate(hole: nat)
      requires hole < size == items.Length && hole / WORD_BITS < words.Length && cnt > 0
      modifies this`cnt, words, items
      ensures cnt == old(cnt) - 1
      ensures items[..] == old(items[..])[hole := ZERO_ITEM] && words[..] == SetBit(old(words[..]), hole)
    {
      cnt := cnt - 1;
      items[hole] := ZERO_ITEM;
      words[hole / WORD_BITS] := Or(words[hole / WORD_BITS], OneBit(hole % WORD_BITS));
    }

    /** Walks the run behind the hole and moves back every item the hole would cut off. */
    method CloseGap(from: nat, nextEmpty: nat) returns (hole: nat)
      requires from < size == items.Length && nextEmpty <= size
      modifies items
      ensures hole < size
      ensures (items[..], hole) == Closed(hash, old(items[..]), from, nextEmpty)
    {
      hole := from;
      var toCheck :=
        if hole < nextEmpty then nextEmpty - hole - 1 else (size - hole - 1) + nextEmpty;
      AfterIsMod(hole, size);
      var cur: nat := (hole + 1) % size;
      var i := 0;
      while i < toCheck
        invariant 0 <= i <= toCheck
        invariant hole < size && cur < size
        invariant Walk(hash, items[..], hole, cur, toCheck - i) == Closed(hash, old(items[..]), from, nextEmpty)
      {
        var home := hash(items[cur].key);
        if || (cur > hole && (home <= hole || home > cur))
           || (cur < hole && home <= hole && home > cur) {
          ghost var before := items[..];
          items[hole] := items[cur];
          assert items[..] == before[hole := before[cur]];
          hole := cur;
        }
        i := i + 1;
        AfterIsMod(cur, size);
        cur := (cur + 1) % size;
      }
    }
  }
}
