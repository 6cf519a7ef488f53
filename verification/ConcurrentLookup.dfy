/** Lookups take no lock (fingerprint_cache.c:151-161), so they interleave with the separate writes of an
    insert: its pages, then the key, then the entry, and last the bit that publishes the slot.

    Inserts exclude each other by the cache lock, so there is one writer at a time; nothing is ever
    removed from the cache.  Each step below is one sequentially consistent access.  The word-wise
    reads of the bit vector are split into one read per slot, which only adds interleavings. */
module ConcurrentLookup {
  import opened ByteStrings
  import opened Probing

  // an insert in progress: filling its pages, then claiming a slot and writing it
  datatype Field = TheKey | TheEntry | TheBit
  datatype Writer =
    | Idle
    | Filling(key: Key, pieces: seq<Bytes>, base: nat, done: nat)
    | Writing(key: Key, entry: Entry, content: seq<Bytes>, at: nat, next: Field)

  // `knew` records whether the key was published when the lookup began
  datatype Reader =
    | Resting
    | Scanning(key: Key, knew: bool, dist: nat)
    | Probing(key: Key, knew: bool, dist: nat, i: nat)
    | Matched(key: Key, knew: bool, dist: nat, i: nat)
    | Found(key: Key, knew: bool, dist: nat, i: nat, entry: Entry)
    | NotFound(key: Key, knew: bool)

  datatype State = State(
    keys: seq<Key>, entries: seq<Entry>, empty: seq<bool>,
    pages: map<nat, Bytes>, handed: nat,
    published: map<Key, seq<Bytes>>,
    w: Writer, r: Reader)

  datatype Action = BeginInsert(key: Key, pieces: seq<Bytes>) | Write | BeginLookup(key: Key) | Read

  /** The slot `d` steps after `home`. */
  function SlotAt(home: nat, d: nat, n: nat): nat
    requires home < n && d <= n
  {
    if home + d < n then home + d else home + d - n
  }

  // the walk to the first empty slot goes past the end of the table
  predicate Wraps(home: nat, dist: nat, n: nat)
  {
    home + dist >= n
  }

  // items_to_check: a wrapped probe looks at one slot more
  function Checks(home: nat, dist: nat, n: nat): nat
  {
    if Wraps(home, dist, n) then dist + 1 else dist
  }

  function TotalSize(pieces: seq<Bytes>): nat
  {
    if pieces == [] then 0 else |pieces[0]| + TotalSize(pieces[1..])
  }

  function PageList(base: nat, n: nat): (s: seq<nat>)
    ensures |s| == n && forall i :: 0 <= i < n ==> s[i] == base + i
  {
    seq(n, i => base + i)
  }

  /** All the bytes of a content. */
  function Flat(pieces: seq<Bytes>): Bytes
  {
    if pieces == [] then [] else Flat(pieces[..|pieces| - 1]) + pieces[|pieces| - 1]
  }

  lemma {:induction false} FlatFront(pieces: seq<Bytes>)
    requires pieces != []
    ensures |Flat(pieces)| == |pieces[0]| + |Flat(pieces[1..])|
    decreases |pieces|
  {
    var n := |pieces| - 1;
    if n == 0 {
      assert pieces[..0] == [];
    } else {
      FlatFront(pieces[..n]);
      assert pieces[..n][1..] == pieces[1..][..n - 1];
    }
  }

  /** The size an insert notes is that of all its bytes. */
  lemma {:induction false} SizeOfAll(pieces: seq<Bytes>)
    ensures TotalSize(pieces) == |Flat(pieces)|
    decreases |pieces|
  {
    if pieces != [] {
      FlatFront(pieces);
      SizeOfAll(pieces[1..]);
    }
  }

  /** At this moment an entry leads to the content, and says how long it is. */
  ghost predicate Leads(pages: map<nat, Bytes>, e: Entry, content: seq<Bytes>)
  {
    && e.size == |Flat(content)| && |e.pages| == |content|
    && forall i :: 0 <= i < |content| ==> e.pages[i] in pages && pages[e.pages[i]] == content[i]
  }

  /** Slot `p` has been published with key `k`. */
  predicate At(keys: seq<Key>, empty: seq<bool>, p: nat, k: Key)
  {
    p < |keys| == |empty| && !empty[p] && keys[p] == k
  }

  predicate Shape(s: State)
  {
    |s.keys| == |s.entries| == |s.empty| > 0
  }

  predicate Enabled(s: State, a: Action)
  {
    match a
    // content takes at least a page, and there are fewer pages than slots
    case BeginInsert(k, pieces) => s.w.Idle? && k != 0 && 0 < |pieces| && s.handed + |pieces| < |s.keys|
    case Write => !s.w.Idle?
    case BeginLookup(k) => k != 0
    case Read => s.r.Scanning? || s.r.Probing? || s.r.Matched?
  }

  /** The next access of the writer. */
  ghost function WriterNext(hash: Hash, s: State): State
    requires Shape(s) && HashInto(hash, |s.keys|)
  {
    match s.w
    case Idle => s
    case Filling(k, pieces, base, i) =>
      if i < |pieces| then
        s.(pages := s.pages[base + i := pieces[i]], w := Filling(k, pieces, base, i + 1))
      else if k in s.published then
        s.(w := Idle)
      else
        var at := FirstEmpty(s.empty, hash(k), 0);
        if at == |s.empty| then s.(w := Idle) else
        s.(w := Writing(k, Entry(TotalSize(pieces), PageList(base, |pieces|)), pieces, at, TheKey))
    case Writing(k, e, c, at, next) =>
      if at >= |s.keys| then s else
      match next
      case TheKey => s.(keys := s.keys[at := k], w := Writing(k, e, c, at, TheEntry))
      case TheEntry => s.(entries := s.entries[at := e], w := Writing(k, e, c, at, TheBit))
      case TheBit => s.(empty := s.empty[at := false], published := s.published[k := c], w := Idle)
  }

  /** The next access of the lookup. */
  function ReaderNext(hash: Hash, s: State): Reader
    requires Shape(s) && hash(if s.r.Resting? then 0 else s.r.key) < |s.keys|
  {
    var n := |s.keys|;
    match s.r
    case Scanning(k, knew, d) =>
      if d < n && !s.empty[SlotAt(hash(k), d, n)] then Scanning(k, knew, d + 1) else Probing(k, knew, d, 0)
    case Probing(k, knew, d, i) =>
      if i >= Checks(hash(k), d, n) || i >= n then NotFound(k, knew)
      else if s.keys[SlotAt(hash(k), i, n)] == k then Matched(k, knew, d, i)
      else Probing(k, knew, d, i + 1)
    case Matched(k, knew, d, i) =>
      if i >= n then s.r
      else Found(k, knew, d, i, s.entries[SlotAt(hash(k), i, n)])
    case other => other
  }

  /** The first empty slot at or after `home + d`. */
  function FirstEmpty(empty: seq<bool>, home: nat, d: nat): nat
    requires home < |empty| && d <= |empty|
    decreases |empty| - d
  {
    if d == |empty| then |empty|
    else if empty[SlotAt(home, d, |empty|)] then SlotAt(home, d, |empty|)
    else FirstEmpty(empty, home, d + 1)
  }

  ghost function Next(hash: Hash, s: State, a: Action): State
    requires Shape(s) && HashInto(hash, |s.keys|)
  {
    match a
    case BeginInsert(k, pieces) => s.(w := Filling(k, pieces, s.handed, 0), handed := s.handed + |pieces|)
    case Write => WriterNext(hash, s)
    case BeginLookup(k) => s.(r := Scanning(k, k in s.published, 0))
    case Read => s.(r := ReaderNext(hash, s))
  }

  // ---- the invariant ----

  /** Published slots: each leads to the content published for its key, over pages given out for good,
      and is reachable from its home. */
  ghost predicate SlotsOK(hash: Hash, keys: seq<Key>, entries: seq<Entry>, empty: seq<bool>,
                          pages: map<nat, Bytes>, published: map<Key, seq<Bytes>>, owned: nat)
  {
    && |keys| == |entries| == |empty| > 0 && HashInto(hash, |keys|)
    && (forall p :: 0 <= p < |keys| && !empty[p] ==>
          && keys[p] != 0 && keys[p] in published
          && Leads(pages, entries[p], published[keys[p]])
          && Reachable(empty, hash(keys[p]), p))
    && (forall p, i :: 0 <= p < |keys| && !empty[p] && 0 <= i < |entries[p].pages| ==> entries[p].pages[i] < owned)
    && (forall k :: k in published ==> exists p :: At(keys, empty, p, k))
  }

  // pages below this mark will not be written again
  function Owned(w: Writer, handed: nat): nat
  {
    if w.Filling? then w.base else handed
  }

  /** How far the insert in progress has come.  Each key published has taken a page, so a slot is always
      empty. */
  ghost predicate WriterOK(hash: Hash, keys: seq<Key>, entries: seq<Entry>, empty: seq<bool>,
                           pages: map<nat, Bytes>, published: map<Key, seq<Bytes>>, handed: nat, w: Writer)
  {
    && |keys| == |entries| == |empty| > 0 && HashInto(hash, |keys|)
    && match w
       case Idle => |published| <= handed < |keys|
       case Filling(k, pieces, base, i) =>
         && |published| <= base < handed < |keys| && k != 0
         && i <= |pieces| && base + |pieces| == handed
         && (forall q: nat :: base <= q < base + i ==> q in pages && pages[q] == pieces[q - base])
       case Writing(k, e, c, at, next) =>
         && |published| < handed < |keys|
         && k != 0 && k !in published && c != []
         && at < |keys| && IsNextEmpty(empty, hash(k), at)
         && Leads(pages, e, c)
         && (forall i :: 0 <= i < |e.pages| ==> e.pages[i] < handed)
         && (next != TheKey ==> keys[at] == k)
         && (next == TheBit ==> entries[at] == e)
  }

  /** The first `d` slots from `home` are published. */
  ghost predicate Walked(empty: seq<bool>, home: nat, d: nat)
  {
    home < |empty| && d <= |empty| && forall j :: 0 <= j < d ==> !empty[SlotAt(home, j, |empty|)]
  }

  /** What a lookup has learnt. */
  ghost predicate ReaderOK(hash: Hash, keys: seq<Key>, entries: seq<Entry>, empty: seq<bool>,
                           published: map<Key, seq<Bytes>>, r: Reader)
  {
    && |keys| == |entries| == |empty| > 0 && HashInto(hash, |keys|)
    && match r
       case Resting => true
       case Scanning(k, knew, d) =>
         k != 0 && Walked(empty, hash(k), d) && (knew ==> k in published)
       case Probing(k, knew, d, i) =>
         && k != 0 && d < |keys| && Walked(empty, hash(k), d) && i <= |keys|
         && (knew ==> exists p :: At(keys, empty, p, k) && i <= Steps(hash(k), p, |keys|) < d)
       case Matched(k, knew, d, i) =>
         && k != 0 && d < |keys| && Walked(empty, hash(k), d) && i < Checks(hash(k), d, |keys|)
         && (i < d ==> keys[SlotAt(hash(k), i, |keys|)] == k)
       case Found(k, knew, d, i, e) =>
         && d < |keys| && i < Checks(hash(k), d, |keys|)
         && (i < d ==> var p := SlotAt(hash(k), i, |keys|); At(keys, empty, p, k) && entries[p] == e)
       case NotFound(k, knew) => !knew
  }

  ghost predicate Inv(hash: Hash, s: State)
  {
    && SlotsOK(hash, s.keys, s.entries, s.empty, s.pages, s.published, Owned(s.w, s.handed))
    && WriterOK(hash, s.keys, s.entries, s.empty, s.pages, s.published, s.handed, s.w)
    && |s.published| == |Occupied(s.empty)|
    && ReaderOK(hash, s.keys, s.entries, s.empty, s.published, s.r)
  }

  // ---- preservation ----

  lemma {:induction false} FirstEmptyIs(empty: seq<bool>, home: nat, d: nat)
    requires home < |empty| && Walked(empty, home, d)
    ensures IsNextEmpty(empty, home, FirstEmpty(empty, home, d))
    decreases |empty| - d
  {
    var n := |empty|;
    if d < n && !empty[SlotAt(home, d, n)] {
      FirstEmptyIs(empty, home, d + 1);
    } else {
      forall p | 0 <= p < n && Steps(home, p, n) < d ensures !empty[p] {
        assert SlotAt(home, Steps(home, p, n), n) == p;
      }
    }
  }

  lemma BeginKeeps(hash: Hash, s: State, a: Action)
    requires Inv(hash, s) && Enabled(s, a) && (a.BeginInsert? || a.BeginLookup?)
    ensures Inv(hash, Next(hash, s, a))
  {
  }

  /** A page given out to the insert in progress belongs to no published entry. */
  lemma FillSlots(hash: Hash, s: State)
    requires Inv(hash, s) && s.w.Filling? && s.w.done < |s.w.pieces|
    ensures var s' := Next(hash, s, Write);
            SlotsOK(hash, s.keys, s.entries, s.empty, s'.pages, s.published, s.w.base)
  {
    hide Reachable, ReaderOK, At;
  }

  lemma FillWriter(hash: Hash, s: State)
    requires Inv(hash, s) && s.w.Filling? && s.w.done < |s.w.pieces|
    ensures var s' := Next(hash, s, Write);
            WriterOK(hash, s.keys, s.entries, s.empty, s'.pages, s.published, s.handed, s'.w)
  {
    hide SlotsOK, ReaderOK, Occupied;
  }

  lemma FillKeeps(hash: Hash, s: State)
    requires Inv(hash, s) && s.w.Filling? && s.w.done < |s.w.pieces|
    ensures Inv(hash, Next(hash, s, Write))
  {
    FillSlots(hash, s);
    FillWriter(hash, s);
    WriterRange(hash, s);
    hide SlotsOK, ReaderOK, WriterOK, Occupied;
  }

  // ending the filling leaves the pages of the published entries below the mark
  lemma ClaimSlots(hash: Hash, s: State)
    requires Inv(hash, s) && s.w.Filling?
    ensures SlotsOK(hash, s.keys, s.entries, s.empty, s.pages, s.published, s.handed)
  {
    hide Reachable, ReaderOK, At, Leads;
  }

  lemma ClaimWriter(hash: Hash, s: State)
    requires Inv(hash, s) && s.w.Filling? && s.w.done == |s.w.pieces|
    ensures var s' := Next(hash, s, Write);
            WriterOK(hash, s'.keys, s'.entries, s'.empty, s'.pages, s'.published, s'.handed, s'.w)
  {
    hide SlotsOK, ReaderOK, Flat, TotalSize, FirstEmpty, Reachable;
    SizeOfAll(s.w.pieces);
    FirstEmptyIs(s.empty, hash(s.w.key), 0);
    OccupiedBound(s.empty);
  }

  lemma ClaimKeeps(hash: Hash, s: State)
    requires Inv(hash, s) && s.w.Filling? && s.w.done == |s.w.pieces|
    ensures Inv(hash, Next(hash, s, Write))
  {
    hide SlotsOK, ReaderOK, WriterOK, Occupied;
    WriterRange(hash, s);
    ClaimSlots(hash, s);
    ClaimWriter(hash, s);
  }

  // writing the key or the entry of an unpublished slot
  ghost predicate SamePublished(s: State, keys: seq<Key>, entries: seq<Entry>)
    requires |keys| == |entries| == |s.keys| == |s.entries| == |s.empty|
  {
    forall p :: 0 <= p < |keys| && !s.empty[p] ==> keys[p] == s.keys[p] && entries[p] == s.entries[p]
  }

  lemma QuietSlots(hash: Hash, s: State, keys: seq<Key>, entries: seq<Entry>)
    requires Inv(hash, s) && |keys| == |entries| == |s.keys| == |s.entries| == |s.empty|
    requires SamePublished(s, keys, entries)
    ensures SlotsOK(hash, keys, entries, s.empty, s.pages, s.published, Owned(s.w, s.handed))
  {
    hide ReaderOK, WriterOK, Reachable, Leads;
    assert forall p, k :: At(s.keys, s.empty, p, k) ==> At(keys, s.empty, p, k);
  }

  lemma QuietReader(hash: Hash, s: State, keys: seq<Key>, entries: seq<Entry>)
    requires Inv(hash, s) && |keys| == |entries| == |s.keys| == |s.entries| == |s.empty|
    requires SamePublished(s, keys, entries)
    ensures ReaderOK(hash, keys, entries, s.empty, s.published, s.r)
  {
    hide SlotsOK, WriterOK;
    assert forall p, k :: At(s.keys, s.empty, p, k) ==> At(keys, s.empty, p, k);
  }

  lemma QuietWriter(hash: Hash, s: State)
    requires Inv(hash, s) && s.w.Writing? && s.w.next != TheBit
    ensures var s' := Next(hash, s, Write);
            && WriterOK(hash, s'.keys, s'.entries, s'.empty, s'.pages, s'.published, s'.handed, s'.w)
            && |s'.keys| == |s'.entries| == |s.keys| == |s.entries| == |s.empty|
            && SamePublished(s, s'.keys, s'.entries)
  {
    hide SlotsOK, ReaderOK, Leads, Occupied;
  }

  lemma SlotWriteKeeps(hash: Hash, s: State)
    requires Inv(hash, s) && s.w.Writing? && s.w.next != TheBit
    ensures Inv(hash, Next(hash, s, Write))
  {
    hide SlotsOK, ReaderOK, WriterOK, Leads, Occupied, SamePublished;
    WriterRange(hash, s);
    var s' := Next(hash, s, Write);
    QuietWriter(hash, s);
    QuietSlots(hash, s, s'.keys, s'.entries);
    QuietReader(hash, s, s'.keys, s'.entries);
  }

  // the new slot and the old ones stay reachable when one more bit is cleared
  lemma PublishReach(hash: Hash, s: State, p: nat)
    requires Inv(hash, s) && s.w.Writing? && s.w.next == TheBit
    requires p < |s.keys| && (!s.empty[p] || p == s.w.at)
    ensures Reachable(s.empty[s.w.at := false], hash(s.keys[p]), p)
  {
    hide ReaderOK, Leads;
    if p != s.w.at { assert Reachable(s.empty, hash(s.keys[p]), p); }
  }

  lemma PublishReaches(hash: Hash, s: State)
    requires Inv(hash, s) && s.w.Writing? && s.w.next == TheBit
    ensures s.w.at < |s.keys| == |s.empty| && HashInto(hash, |s.keys|)
    ensures forall p :: 0 <= p < |s.keys| && (!s.empty[p] || p == s.w.at) ==>
              Reachable(s.empty[s.w.at := false], hash(s.keys[p]), p)
  {
    forall p | 0 <= p < |s.keys| && (!s.empty[p] || p == s.w.at)
      ensures Reachable(s.empty[s.w.at := false], hash(s.keys[p]), p)
    {
      PublishReach(hash, s, p);
    }
  }

  lemma PublishSlots(hash: Hash, s: State)
    requires Inv(hash, s) && s.w.Writing? && s.w.next == TheBit
    ensures var s' := Next(hash, s, Write);
            SlotsOK(hash, s'.keys, s'.entries, s'.empty, s'.pages, s'.published, s'.handed)
  {
    hide ReaderOK, Leads, Flat, Reachable, IsNextEmpty, Occupied;
    var s' := Next(hash, s, Write);
    PublishReaches(hash, s);
    assert forall p, k :: At(s.keys, s.empty, p, k) ==> At(s'.keys, s'.empty, p, k);
    assert At(s'.keys, s'.empty, s.w.at, s.w.key);
  }

  lemma PublishReader(hash: Hash, s: State)
    requires Inv(hash, s) && s.w.Writing? && s.w.next == TheBit
    ensures var s' := Next(hash, s, Write);
            ReaderOK(hash, s'.keys, s'.entries, s'.empty, s'.published, s'.r)
  {
    hide SlotsOK;
    var s' := Next(hash, s, Write);
    assert forall p, k :: At(s.keys, s.empty, p, k) ==> At(s'.keys, s'.empty, p, k);
  }

  lemma PublishKeeps(hash: Hash, s: State)
    requires Inv(hash, s) && s.w.Writing? && s.w.next == TheBit
    ensures Inv(hash, Next(hash, s, Write))
  {
    PublishSlots(hash, s);
    PublishReader(hash, s);
    OccupiedAdd(s.empty, s.w.at);
    hide SlotsOK, ReaderOK, Leads, Occupied;
  }

  /** The scan ends before the table does, and past the slot of a key published when it began. */
  lemma ScanEnds(hash: Hash, s: State)
    requires Inv(hash, s) && s.r.Scanning?
    ensures s.r.dist < |s.keys|
    ensures s.r.knew && s.empty[SlotAt(hash(s.r.key), s.r.dist, |s.keys|)] ==>
              exists p :: At(s.keys, s.empty, p, s.r.key) && Steps(hash(s.r.key), p, |s.keys|) < s.r.dist
  {
    var n, home := |s.keys|, hash(s.r.key);
    OccupiedBound(s.empty);
    forall p | 0 <= p < n && Steps(home, p, n) < s.r.dist ensures !s.empty[p] {
      assert SlotAt(home, Steps(home, p, n), n) == p;
    }
    if s.r.knew && s.r.dist < n && s.empty[SlotAt(home, s.r.dist, n)] {
      var p :| At(s.keys, s.empty, p, s.r.key);
      assert Reachable(s.empty, home, p);
      var e := SlotAt(home, s.r.dist, n);
      assert !Between(home, e, p);
    }
  }

  lemma ScanKeeps(hash: Hash, s: State)
    requires Inv(hash, s) && s.r.Scanning?
    ensures Inv(hash, Next(hash, s, Read))
  {
    ScanEnds(hash, s);
    hide SlotsOK, WriterOK;
  }

  lemma ProbeKeeps(hash: Hash, s: State)
    requires Inv(hash, s) && s.r.Probing?
    ensures Inv(hash, Next(hash, s, Read))
  {
    hide SlotsOK, WriterOK, Walked;
    var Probing(k, knew, d, i) := s.r;
    if knew {
      var p :| At(s.keys, s.empty, p, k) && i <= Steps(hash(k), p, |s.keys|) < d;
      assert SlotAt(hash(k), Steps(hash(k), p, |s.keys|), |s.keys|) == p;
    }
  }

  lemma MatchKeeps(hash: Hash, s: State)
    requires Inv(hash, s) && s.r.Matched?
    ensures Inv(hash, Next(hash, s, Read))
  {
    hide SlotsOK, WriterOK;
  }

  lemma StepKeeps(hash: Hash, s: State, a: Action)
    requires Inv(hash, s) && Enabled(s, a)
    ensures Inv(hash, Next(hash, s, a))
  {
    hide SlotsOK, WriterOK, ReaderOK;
    WriterRange(hash, s);
    match a
    case Write =>
      if s.w.Filling? {
        if s.w.done < |s.w.pieces| { FillKeeps(hash, s); } else { ClaimKeeps(hash, s); }
      } else if s.w.next == TheBit {
        PublishKeeps(hash, s);
      } else {
        SlotWriteKeeps(hash, s);
      }
    case Read =>
      match s.r {
        case Scanning(_, _, _) => ScanKeeps(hash, s);
        case Probing(_, _, _, _) => ProbeKeeps(hash, s);
        case _ => MatchKeeps(hash, s);
      }
    case _ => BeginKeeps(hash, s, a);
  }

  lemma WriterRange(hash: Hash, s: State)
    requires Inv(hash, s)
    ensures Shape(s) && HashInto(hash, |s.keys|)
    ensures s.w.Filling? ==> s.w.done <= |s.w.pieces|
  {
  }

  // ---- runs ----

  /** Every step of the run is an enabled access. */
  ghost predicate IsRun(hash: Hash, states: seq<State>, acts: seq<Action>)
  {
    && |states| == |acts| + 1
    && forall i :: 0 <= i < |acts| ==>
         && Shape(states[i]) && HashInto(hash, |states[i].keys|)
         && Enabled(states[i], acts[i]) && states[i + 1] == Next(hash, states[i], acts[i])
  }

  lemma RunLonger(hash: Hash, states: seq<State>, acts: seq<Action>, a: Action, s: State)
    requires |states| == |acts| + 1 && IsRun(hash, states, acts)
    requires Shape(states[|acts|]) && HashInto(hash, |states[|acts|].keys|)
    requires Enabled(states[|acts|], a) && s == Next(hash, states[|acts|], a)
    ensures IsRun(hash, states + [s], acts + [a])
    ensures |states + [s]| == |acts + [a]| + 1 && (states + [s])[|acts + [a]|] == s && (states + [s])[0] == states[0]
  {
  }

  /** The zero-filled table of `n` slots. */
  function Start(n: nat): State
  {
    State(seq(n, _ => 0), seq(n, _ => ZERO_ITEM.entry), seq(n, _ => true), map[], 0, map[], Idle, Resting)
  }

  lemma StartOK(hash: Hash, n: nat)
    requires n > 0 && HashInto(hash, n)
    ensures Inv(hash, Start(n))
  {
    assert Occupied(Start(n).empty) == {};
  }

  lemma {:induction false} RunKeeps(hash: Hash, states: seq<State>, acts: seq<Action>, i: nat)
    requires IsRun(hash, states, acts) && Inv(hash, states[0]) && i < |states|
    ensures Inv(hash, states[i])
  {
    if i > 0 {
      RunKeeps(hash, states, acts, i - 1);
      StepKeeps(hash, states[i - 1], acts[i - 1]);
    }
  }

  /** The insert in progress is of this key and content. */
  predicate Inserting(w: Writer, k: Key, content: seq<Bytes>)
  {
    match w
    case Idle => false
    case Filling(key, pieces, _, _) => key == k && pieces == content
    case Writing(key, _, c, _, _) => key == k && c == content
  }

  /** Some insert of the first `i` actions was of this key and content. */
  predicate Inserted(acts: seq<Action>, i: nat, k: Key, content: seq<Bytes>)
    requires i <= |acts|
  {
    BeginInsert(k, content) in acts[..i]
  }

  /** What is published under a key, or about to be, is the content of an insert of that key. */
  lemma {:induction false} PublishedWasInserted(hash: Hash, n: nat, states: seq<State>, acts: seq<Action>, i: nat,
                                                k: Key, content: seq<Bytes>)
    requires IsRun(hash, states, acts) && states[0] == Start(n) && i < |states|
    requires (k in states[i].published && states[i].published[k] == content) || Inserting(states[i].w, k, content)
    ensures Inserted(acts, i, k, content)
    decreases i
  {
    if i > 0 {
      var s, a := states[i - 1], acts[i - 1];
      assert Enabled(s, a) && states[i] == Next(hash, s, a);
      assert acts[..i] == acts[..i - 1] + [a];
      if a != BeginInsert(k, content) {
        PublishedWasInserted(hash, n, states, acts, i - 1, k, content);
      }
    }
  }

  // the lookup begun by act `b` is still the current one at state `i`
  lemma {:induction false} SameLookup(hash: Hash, states: seq<State>, acts: seq<Action>, b: nat, i: nat)
    requires IsRun(hash, states, acts) && b < i < |states| && acts[b].BeginLookup?
    requires forall j :: b < j < |acts| ==> !acts[j].BeginLookup?
    ensures !states[i].r.Resting? && states[i].r.key == acts[b].key
    ensures states[i].r.knew == (acts[b].key in states[b].published)
  {
    if b + 1 < i {
      SameLookup(hash, states, acts, b, i - 1);
      assert states[i] == Next(hash, states[i - 1], acts[i - 1]);
    } else {
      assert states[i] == Next(hash, states[b], acts[b]);
    }
  }

  /** In every run from the zeroed table, whatever inserts happen meanwhile: a lookup misses no key that
      was published when it began; and an entry it finds without using the extra slot of a wrapped probe
      is published and leads, then and ever after, to the content published for the key.  A probe that
      does not wrap has no extra slot. */
  lemma LookupSound(hash: Hash, n: nat, states: seq<State>, acts: seq<Action>, b: nat)
    requires n > 0 && HashInto(hash, n)
    requires IsRun(hash, states, acts) && states[0] == Start(n)
    requires b < |acts| && acts[b].BeginLookup? && forall j :: b < j < |acts| ==> !acts[j].BeginLookup?
    ensures var last := states[|acts|];
            && (last.r.NotFound? ==> acts[b].key !in states[b].published)
            && (last.r.Found? && !Wraps(hash(acts[b].key), last.r.dist, |last.keys|) ==> last.r.i < last.r.dist)
            && (last.r.Found? && last.r.i < last.r.dist ==>
                  && acts[b].key in last.published
                  && Leads(last.pages, last.r.entry, last.published[acts[b].key]))
  {
    StartOK(hash, n);
    RunKeeps(hash, states, acts, |acts|);
    SameLookup(hash, states, acts, b, |acts|);
  }

  /** A lookup that does not end in the extra slot answers as if it had been one atomic access: there is a
      state between its first access and its last one in which its answer is the right one.  (And the
      pages it is led to can be copied at any later time: see LookupSound.) */
  lemma Linearizes(hash: Hash, n: nat, states: seq<State>, acts: seq<Action>, b: nat) returns (j: nat)
    requires n > 0 && HashInto(hash, n)
    requires IsRun(hash, states, acts) && states[0] == Start(n)
    requires b < |acts| && acts[b].BeginLookup? && forall i :: b < i < |acts| ==> !acts[i].BeginLookup?
    requires var r := states[|acts|].r; r.NotFound? || (r.Found? && r.i < r.dist)
    ensures b <= j <= |acts|
    ensures var k, r, at := acts[b].key, states[|acts|].r, states[j];
            && (r.NotFound? ==> k !in at.published)
            && (r.Found? ==> k in at.published && Leads(at.pages, r.entry, at.published[k]))
  {
    LookupSound(hash, n, states, acts, b);
    j := if states[|acts|].r.NotFound? then b else |acts|;
  }

  // ---- exactly when a hit is good ----

  /** A slot that is not published holds zeros, but for what the writer has put there. */
  ghost predicate Clean(s: State)
  {
    Shape(s) &&
    forall p :: 0 <= p < |s.keys| && s.empty[p] ==>
      && (s.keys[p] != 0 ==> s.w.Writing? && s.w.at == p && s.w.next != TheKey)
      && (s.entries[p] != ZERO_ITEM.entry ==> s.w.Writing? && s.w.at == p && s.w.next == TheBit)
  }

  /** The slot at which the lookup has found its key. */
  function HitSlot(hash: Hash, s: State): nat
    requires Shape(s) && s.r.Matched? && hash(s.r.key) < |s.keys|
  {
    if s.r.i <= |s.keys| then SlotAt(hash(s.r.key), s.r.i, |s.keys|) else 0
  }

  ghost predicate HitHolds(hash: Hash, s: State)
  {
    s.r.Matched? ==>
      && Shape(s) && hash(s.r.key) < |s.keys| && s.r.i < |s.keys| && s.r.key != 0
      && s.keys[HitSlot(hash, s)] == s.r.key
  }

  /** The writer has written the key of the slot and not yet its entry. */
  predicate HalfDone(s: State, slot: nat)
  {
    s.w.Writing? && s.w.at == slot && s.w.next == TheEntry
  }

  /** The content published in a slot, or about to be. */
  function Meant(s: State, slot: nat): seq<Bytes>
    requires slot < |s.keys|
  {
    if s.w.Writing? && s.w.at == slot then s.w.content
    else if s.keys[slot] in s.published then s.published[s.keys[slot]] else []
  }

  lemma CleanKept(hash: Hash, s: State, a: Action)
    requires Inv(hash, s) && Enabled(s, a) && Clean(s)
    ensures Clean(Next(hash, s, a))
  {
    hide SlotsOK, ReaderOK, Leads, Reachable, Occupied;
  }

  lemma HitKept(hash: Hash, s: State, a: Action)
    requires Inv(hash, s) && Enabled(s, a) && Clean(s) && HitHolds(hash, s)
    ensures HitHolds(hash, Next(hash, s, a))
  {
    hide SlotsOK, Leads, Reachable, Occupied, Walked;
  }

  lemma {:induction false} RunClean(hash: Hash, states: seq<State>, acts: seq<Action>, i: nat)
    requires IsRun(hash, states, acts) && Inv(hash, states[0]) && Clean(states[0]) && HitHolds(hash, states[0])
    requires i < |states|
    ensures Inv(hash, states[i]) && Clean(states[i]) && HitHolds(hash, states[i])
  {
    hide Inv, Enabled, Next, Clean, HitHolds;
    if i > 0 {
      RunClean(hash, states, acts, i - 1);
      StepKeeps(hash, states[i - 1], acts[i - 1]);
      CleanKept(hash, states[i - 1], acts[i - 1]);
      HitKept(hash, states[i - 1], acts[i - 1]);
    }
  }

  /** When the lookup has found its key in a slot, the extra one included, the key is published exactly
      if the slot is not the writer's; and the entry there is the right one exactly if the writer is not
      between the key and the entry. */
  lemma HitExact(hash: Hash, s: State)
    requires Inv(hash, s) && Clean(s) && HitHolds(hash, s) && s.r.Matched?
    ensures var slot := HitSlot(hash, s);
            && (s.r.key in s.published <==> !(s.w.Writing? && s.w.at == slot))
            && (Leads(s.pages, s.entries[slot], Meant(s, slot)) <==> !HalfDone(s, slot))
  {
    hide ReaderOK, Reachable, Occupied;
  }

  /** So, in every run from the zeroed table: what a lookup returns leads to the content of its key if and
      only if its last read does not fall between the writes of that key and its entry. */
  lemma LookupExact(hash: Hash, n: nat, states: seq<State>, acts: seq<Action>, j: nat)
    requires n > 0 && HashInto(hash, n)
    requires IsRun(hash, states, acts) && states[0] == Start(n)
    requires j < |acts| && acts[j] == Read && states[j].r.Matched?
    ensures var s, s' := states[j], states[j + 1];
            && Shape(s) && hash(s.r.key) < |s.keys|
            && var slot := HitSlot(hash, s);
               && slot < |s.keys| && s'.r.Found? && s'.r.key == s.r.key
               && (s'.r.key in s'.published <==> !(s'.w.Writing? && s'.w.at == slot))
               && (Leads(s'.pages, s'.r.entry, Meant(s', slot)) <==> !HalfDone(s', slot))
  {
    StartOK(hash, n);
    RunClean(hash, states, acts, j);
    HitExact(hash, states[j]);
    hide Inv, Clean, Start, Leads;
  }

  /** And that content is the one of an insert of the key: the entry returned, from the extra slot too, names all
      its bytes in order and their number, unless the last read falls between those two writes. */
  lemma FoundIsWhole(hash: Hash, n: nat, states: seq<State>, acts: seq<Action>, j: nat) returns (content: seq<Bytes>)
    requires n > 0 && HashInto(hash, n)
    requires IsRun(hash, states, acts) && states[0] == Start(n)
    requires j < |acts| && acts[j] == Read && states[j].r.Matched?
    ensures Shape(states[j]) && hash(states[j].r.key) < |states[j].keys|
    ensures var r := states[j + 1].r;
            && r.Found? && Inserted(acts, j, r.key, content)
            && (r.entry.size == |Flat(content)| && Leads(states[j + 1].pages, r.entry, content)
                <==> !HalfDone(states[j + 1], HitSlot(hash, states[j])))
  {
    LookupExact(hash, n, states, acts, j);
    StartOK(hash, n);
    RunClean(hash, states, acts, j);
    content := Meant(states[j], HitSlot(hash, states[j]));
    PublishedWasInserted(hash, n, states, acts, j, states[j].r.key, content);
  }

  // ---- a wrapped probe ----

  const FIRST := Entry(1, [0])
  const SECOND := Entry(1, [1])

  // three slots, before key 5 is published
  function Early(keys: seq<Key>, last: Entry, pages: map<nat, Bytes>, handed: nat, w: Writer): State
  {
    var e := ZERO_ITEM.entry;
    State(keys, [e, e, last], [true, true, true], pages, handed, map[], w, Resting)
  }

  // key 5 is published in its home slot, the last one
  function Late(keys: seq<Key>, pages: map<nat, Bytes>, handed: nat, w: Writer, r: Reader): State
  {
    var e := ZERO_ITEM.entry;
    State(keys, [e, e, FIRST], [true, true, false], pages, handed, map[5 := [[1]]], w, r)
  }

  function FirstInsert(): seq<State>
  {
    var e, page := ZERO_ITEM.entry, map[0 := [1]];
    [Early([0, 0, 0], e, map[], 0, Idle),
     Early([0, 0, 0], e, map[], 1, Filling(5, [[1]], 0, 0)),
     Early([0, 0, 0], e, page, 1, Filling(5, [[1]], 0, 1)),
     Early([0, 0, 0], e, page, 1, Writing(5, FIRST, [[1]], 2, TheKey)),
     Early([0, 0, 5], e, page, 1, Writing(5, FIRST, [[1]], 2, TheEntry)),
     Early([0, 0, 5], FIRST, page, 1, Writing(5, FIRST, [[1]], 2, TheBit)),
     Late([0, 0, 5], page, 1, Idle, Resting)]
  }

  // the insert of key 7, up to where its key is written and its entry is not
  function SecondInsert(): seq<State>
  {
    var page, pages := map[0 := [1]], map[0 := [1], 1 := [2]];
    [Late([0, 0, 5], page, 1, Idle, Resting),
     Late([0, 0, 5], page, 2, Filling(7, [[2]], 1, 0), Resting),
     Late([0, 0, 5], pages, 2, Filling(7, [[2]], 1, 1), Resting),
     Late([0, 0, 5], pages, 2, Writing(7, SECOND, [[2]], 0, TheKey), Resting),
     HalfWritten(Resting)]
  }

  function HalfWritten(r: Reader): State
  {
    Late([7, 0, 5], map[0 := [1], 1 := [2]], 2, Writing(7, SECOND, [[2]], 0, TheEntry), r)
  }

  // the lookup of key 7 at that point
  function TheLookup(): seq<State>
  {
    [HalfWritten(Resting), HalfWritten(Scanning(7, false, 0)), HalfWritten(Scanning(7, false, 1)),
     HalfWritten(Probing(7, false, 1, 0)), HalfWritten(Probing(7, false, 1, 1)),
     HalfWritten(Matched(7, false, 1, 1)), HalfWritten(Found(7, false, 1, 1, ZERO_ITEM.entry))]
  }

  ghost predicate StepsBy(hash: Hash, s: State, a: Action, s': State)
  {
    Shape(s) && (forall k: Key :: hash(k) == 2) && |s.keys| == 3 && Enabled(s, a) && s' == Next(hash, s, a)
  }

  lemma FirstSteps(hash: Hash, i: nat)
    requires i < 6 && forall k: Key :: hash(k) == 2
    ensures StepsBy(hash, FirstInsert()[i], if i == 0 then BeginInsert(5, [[1]]) else Write, FirstInsert()[i + 1])
  {
    assert FirstEmpty([true, true, true], 2, 0) == 2;
    assert PageList(0, 1) == [0];
    assert TotalSize([[1]]) == 1;
  }

  lemma SecondSteps(hash: Hash, i: nat)
    requires i < 4 && forall k: Key :: hash(k) == 2
    ensures StepsBy(hash, SecondInsert()[i], if i == 0 then BeginInsert(7, [[2]]) else Write, SecondInsert()[i + 1])
  {
    assert FirstEmpty([true, true, false], 2, 0) == FirstEmpty([true, true, false], 2, 1) == 0;
    assert PageList(1, 1) == [1];
    assert TotalSize([[2]]) == 1;
  }

  lemma LookupSteps(hash: Hash, i: nat)
    requires i < 6 && forall k: Key :: hash(k) == 2
    ensures StepsBy(hash, TheLookup()[i], if i == 0 then BeginLookup(7) else Read, TheLookup()[i + 1])
  {
  }

  // a run that has come to the beginning of a path goes on to its end
  lemma FollowPath(hash: Hash, states: seq<State>, acts: seq<Action>, path: seq<State>, first: Action, other: Action)
    returns (states': seq<State>, acts': seq<Action>)
    requires IsRun(hash, states, acts) && path != [] && states[|acts|] == path[0]
    requires forall i :: 0 <= i < |path| - 1 ==> StepsBy(hash, path[i], if i == 0 then first else other, path[i + 1])
    ensures IsRun(hash, states', acts')
    ensures states'[0] == states[0] && states'[|acts'|] == path[|path| - 1]
  {
    hide Next, Enabled;
    states', acts' := states, acts;
    for i := 0 to |path| - 1
      invariant IsRun(hash, states', acts') && states'[0] == states[0] && states'[|acts'|] == path[i]
    {
      var a := if i == 0 then first else other;
      RunLonger(hash, states', acts', a, path[i + 1]);
      states', acts' := states' + [path[i + 1]], acts' + [a];
    }
  }

  /** The extra slot of a wrapped probe matters.  In this run of a three-slot table whose keys all have
      the last slot as home, the lookup of key 7 finds it where its insert has not written the entry
      yet, and returns the zeros that were there. */
  lemma WrappedProbeUnsound(hash: Hash) returns (states: seq<State>, acts: seq<Action>)
    requires forall k: Key :: hash(k) == 2
    ensures IsRun(hash, states, acts) && states[0] == Start(3)
    ensures states[|acts|].r.Found? && states[|acts|].r.key !in states[|acts|].published
    ensures states[|acts|].r.entry == ZERO_ITEM.entry
  {
    assert FirstInsert()[0] == Start(3);
    forall i | 0 <= i < 6
      ensures StepsBy(hash, FirstInsert()[i], if i == 0 then BeginInsert(5, [[1]]) else Write, FirstInsert()[i + 1])
    {
      FirstSteps(hash, i);
    }
    forall i | 0 <= i < 4
      ensures StepsBy(hash, SecondInsert()[i], if i == 0 then BeginInsert(7, [[2]]) else Write, SecondInsert()[i + 1])
    {
      SecondSteps(hash, i);
    }
    forall i | 0 <= i < 6
      ensures StepsBy(hash, TheLookup()[i], if i == 0 then BeginLookup(7) else Read, TheLookup()[i + 1])
    {
      LookupSteps(hash, i);
    }
    hide StepsBy;
    states, acts := FollowPath(hash, [Start(3)], [], FirstInsert(), BeginInsert(5, [[1]]), Write);
    states, acts := FollowPath(hash, states, acts, SecondInsert(), BeginInsert(7, [[2]]), Write);
    states, acts := FollowPath(hash, states, acts, TheLookup(), BeginLookup(7), Read);
  }
}
