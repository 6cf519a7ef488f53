/** What the page cache is for: a fingerprint leads to the content first stored under it. */
module CacheSpec {
  import opened ByteStrings
  import opened Probing
  import opened Settings

  datatype Cache = Cache(index: map<Key, Bytes>, free: nat)

  // MY_CEIL(n, PAGE_SIZE)
  function PagesFor(n: nat): nat
  {
    (n + PAGE_SIZE - 1) / PAGE_SIZE
  }

  /** Pages are there for `n` bytes. */
  predicate Fits(c: Cache, n: nat)
  {
    PagesFor(n) <= MAX_PAGES && PagesFor(n) <= c.free
  }

  /** Pages are taken before the index is searched, so a duplicate costs pages too. */
  function Store(c: Cache, k: Key, content: Bytes): Cache
  {
    if !Fits(c, |content|) then c
    else Cache(if k in c.index then c.index else c.index[k := content], c.free - PagesFor(|content|))
  }

  /** A chunk of admissible length is refused only for want of free pages. */
  lemma ChunkFits(c: Cache, n: nat)
    requires n <= MAX_CHUNK + MIN_CHUNK - 1
    ensures Fits(c, n) <==> PagesFor(n) <= c.free
  {
  }

  /** Content is taken as long as it is no longer than the free pages, nor than the pages of an entry; and it costs
      the least number of pages that hold it. */
  lemma FitsExactly(c: Cache, n: nat)
    ensures Fits(c, n) <==> n <= PAGE_SIZE * c.free && n <= PAGE_SIZE * MAX_PAGES
    ensures PAGE_SIZE * PagesFor(n) - PAGE_SIZE < n <= PAGE_SIZE * PagesFor(n)
  {
  }

  // ---- whole runs ----

  datatype Op = Put(key: Key, content: Bytes) | Get(key: Key)
  datatype Answer = Stored | Full | Missing | Hit(content: Bytes)

  function Apply(c: Cache, op: Op): Cache
  {
    match op
    case Put(k, x) => Store(c, k, x)
    case Get(_) => c
  }

  function Reply(c: Cache, op: Op): Answer
  {
    match op
    case Put(k, x) => if Fits(c, |x|) then Stored else Full
    case Get(k) => if k in c.index then Hit(c.index[k]) else Missing
  }

  function ApplyAll(c: Cache, ops: seq<Op>): Cache
    decreases |ops|
  {
    if ops == [] then c else ApplyAll(Apply(c, ops[0]), ops[1..])
  }

  function Replies(c: Cache, ops: seq<Op>): (r: seq<Answer>)
    ensures |r| == |ops|
    decreases |ops|
  {
    if ops == [] then [] else [Reply(c, ops[0])] + Replies(Apply(c, ops[0]), ops[1..])
  }

  lemma {:induction false} StoredStays(c: Cache, ops: seq<Op>, k: Key)
    requires k in c.index
    ensures k in ApplyAll(c, ops).index && ApplyAll(c, ops).index[k] == c.index[k]
    decreases |ops|
  {
    if ops != [] {
      StoredStays(Apply(c, ops[0]), ops[1..], k);
    }
  }

  lemma {:induction false} RepliesAt(c: Cache, ops: seq<Op>, i: nat)
    requires i < |ops|
    ensures Replies(c, ops)[i] == Reply(ApplyAll(c, ops[..i]), ops[i])
    decreases |ops|
  {
    if i > 0 {
      RepliesAt(Apply(c, ops[0]), ops[1..], i - 1);
      assert ops[1..][..i - 1] == ops[..i][1..];
    }
  }

  lemma {:induction false} ApplyAllSplit(c: Cache, a: seq<Op>, b: seq<Op>)
    ensures ApplyAll(c, a + b) == ApplyAll(ApplyAll(c, a), b)
    decreases |a|
  {
    if a == [] {
      assert a + b == b;
    } else {
      ApplyAllSplit(Apply(c, a[0]), a[1..], b);
      assert (a + b)[1..] == a[1..] + b;
    }
  }

  /** Whatever is inserted later, a fingerprint that was absent and then stored answers with the bytes
      of that first insertion. */
  lemma FirstContentWins(c: Cache, ops: seq<Op>, i: nat, j: nat)
    requires i < j < |ops| && ops[i].Put? && ops[j] == Get(ops[i].key)
    requires Replies(c, ops)[i] == Stored && ops[i].key !in ApplyAll(c, ops[..i]).index
    ensures Replies(c, ops)[j] == Hit(ops[i].content)
  {
    RepliesAt(c, ops, i);
    RepliesAt(c, ops, j);
    var before := ApplyAll(c, ops[..i]);
    var mid := Apply(before, ops[i]);
    assert ops[..i + 1] == ops[..i] + [ops[i]];
    ApplyAllSplit(c, ops[..i], [ops[i]]);
    assert ApplyAll(c, ops[..i + 1]) == mid;
    assert ops[..j] == ops[..i + 1] + ops[i + 1..j];
    ApplyAllSplit(c, ops[..i + 1], ops[i + 1..j]);
    StoredStays(mid, ops[i + 1..j], ops[i].key);
  }

  // ---- a stage that inserts one content after the other ----

  /** The pages that the first `r` contents take. */
  function Cost(pieces: seq<Bytes>, r: nat): nat
    requires r <= |pieces|
  {
    if r == 0 then 0 else Cost(pieces, r - 1) + PagesFor(|pieces[r - 1]|)
  }

  /** `after` is the cache `c` once the first `r` contents are inserted. */
  ghost predicate Inserted(c: Cache, keys: seq<Key>, pieces: seq<Bytes>, r: nat, after: Cache)
  {
    && |keys| == |pieces| && r <= |pieces| && after.free + Cost(pieces, r) == c.free
    && (forall k :: k in after.index <==> k in c.index || k in keys[..r])
    && (forall k :: k in c.index ==> k in after.index && after.index[k] == c.index[k])
    && (forall j :: 0 <= j < r && keys[j] !in c.index && keys[j] !in keys[..j] ==>
          keys[j] in after.index && after.index[keys[j]] == pieces[j])
  }

  /** A stage goes on to the end, or to the first content that an entry or the free pages have no room for, and then
      sets the flag; with the flag set it inserts nothing. */
  ghost predicate StageInserts(c: Cache, skip: bool, keys: seq<Key>, pieces: seq<Bytes>, after: Cache, skip': bool)
  {
    exists r: nat ::
      && Inserted(c, keys, pieces, r, after)
      && (skip ==> r == 0 && skip')
      && (!skip ==> (skip' <==> r < |pieces|))
      && (!skip && r < |pieces| ==> |pieces[r]| > PAGE_SIZE * after.free || |pieces[r]| > PAGE_SIZE * MAX_PAGES)
  }

  lemma InsertedNone(c: Cache, keys: seq<Key>, pieces: seq<Bytes>)
    requires |keys| == |pieces|
    ensures Inserted(c, keys, pieces, 0, c)
  {
  }

  lemma StoreAdds(c: Cache, k: Key, x: Bytes)
    requires Fits(c, |x|)
    ensures Store(c, k, x).free + PagesFor(|x|) == c.free
    ensures forall n :: n in Store(c, k, x).index <==> n in c.index || n == k
    ensures forall n :: n in c.index ==> Store(c, k, x).index[n] == c.index[n]
    ensures k !in c.index ==> Store(c, k, x).index[k] == x
  {
    hide PagesFor;
  }

  lemma InsertedMore(c: Cache, keys: seq<Key>, pieces: seq<Bytes>, r: nat, now: Cache)
    requires Inserted(c, keys, pieces, r, now) && r < |pieces| && Fits(now, |pieces[r]|)
    ensures Inserted(c, keys, pieces, r + 1, Store(now, keys[r], pieces[r]))
  {
    hide PagesFor, Fits, Store;
    StoreAdds(now, keys[r], pieces[r]);
    var after := Store(now, keys[r], pieces[r]);
    OneMoreKey(keys, r);
    forall j | 0 <= j < r + 1 && keys[j] !in c.index && keys[j] !in keys[..j]
      ensures keys[j] in after.index && after.index[keys[j]] == pieces[j]
    {
      if j == r { assert keys[r] !in now.index; }
    }
  }

  lemma OneMoreKey(keys: seq<Key>, r: nat)
    requires r < |keys|
    ensures forall k :: k in keys[..r + 1] <==> k in keys[..r] || k == keys[r]
  {
    assert keys[..r + 1] == keys[..r] + [keys[r]];
  }

  // ---- the answers of a run, from the operations and the answers before ----

  /** Operation `j` stored content under the key. */
  predicate StoredAt(ops: seq<Op>, answers: seq<Answer>, j: nat, k: Key)
    requires |answers| == |ops| && j < |ops|
  {
    ops[j].Put? && ops[j].key == k && answers[j] == Stored
  }

  /** And it was the first one to do so. */
  predicate FirstStored(ops: seq<Op>, answers: seq<Answer>, j: nat, k: Key)
    requires |answers| == |ops| && j < |ops|
  {
    StoredAt(ops, answers, j, k) && forall n :: 0 <= n < j ==> !StoredAt(ops, answers, n, k)
  }

  predicate StoredBefore(ops: seq<Op>, answers: seq<Answer>, i: nat, k: Key)
    requires |answers| == |ops| && i <= |ops|
  {
    exists j :: 0 <= j < i && StoredAt(ops, answers, j, k)
  }

  /** How many pages the contents stored by the first `i` operations took, duplicates included. */
  function PagesTaken(ops: seq<Op>, answers: seq<Answer>, i: nat): nat
    requires |answers| == |ops| && i <= |ops|
  {
    if i == 0 then 0
    else PagesTaken(ops, answers, i - 1)
         + (if StoredAt(ops, answers, i - 1, ops[i - 1].key) then PagesFor(|ops[i - 1].content|) else 0)
  }

  /** A put is refused if an entry has no room for the content, or if the pages left are too few.  A get finds what the
      cache started with, or else the bytes first stored since. */
  ghost predicate RightReply(c: Cache, ops: seq<Op>, answers: seq<Answer>, i: nat)
    requires |answers| == |ops| && i < |ops|
  {
    match ops[i]
    case Put(_, x) =>
      answers[i] == (if |x| <= PAGE_SIZE * MAX_PAGES && |x| <= PAGE_SIZE * (c.free - PagesTaken(ops, answers, i))
                     then Stored else Full)
    case Get(k) =>
      if k in c.index then answers[i] == Hit(c.index[k])
      else if !StoredBefore(ops, answers, i, k) then answers[i] == Missing
      else exists j :: 0 <= j < i && FirstStored(ops, answers, j, k) && answers[i] == Hit(ops[j].content)
  }

  lemma ApplyNext(c: Cache, ops: seq<Op>, i: nat)
    requires i < |ops|
    ensures ApplyAll(c, ops[..i + 1]) == Apply(ApplyAll(c, ops[..i]), ops[i])
  {
    assert ops[..i + 1] == ops[..i] + [ops[i]];
    ApplyAllSplit(c, ops[..i], [ops[i]]);
  }

  /** One operation: what it stores and what it costs. */
  lemma ApplyIs(c: Cache, op: Op, k: Key)
    ensures k in Apply(c, op).index <==> k in c.index || (op.Put? && op.key == k && Reply(c, op) == Stored)
    ensures Apply(c, op).free + (if op.Put? && Reply(c, op) == Stored then PagesFor(|op.content|) else 0) == c.free
  {
  }

  lemma {:induction false} HeldAfter(c: Cache, ops: seq<Op>, i: nat, k: Key)
    requires i <= |ops|
    ensures ApplyAll(c, ops[..i]).free + PagesTaken(ops, Replies(c, ops), i) == c.free
    ensures k in ApplyAll(c, ops[..i]).index <==> k in c.index || StoredBefore(ops, Replies(c, ops), i, k)
  {
    hide PagesFor, Apply, Reply;
    if i > 0 {
      HeldAfter(c, ops, i - 1, k);
      ApplyNext(c, ops, i - 1);
      RepliesAt(c, ops, i - 1);
      ApplyIs(ApplyAll(c, ops[..i - 1]), ops[i - 1], k);
      BeforeStep(ops, Replies(c, ops), i - 1, k);
    }
  }

  lemma BeforeStep(ops: seq<Op>, answers: seq<Answer>, i: nat, k: Key)
    requires |answers| == |ops| && i < |ops|
    ensures StoredBefore(ops, answers, i + 1, k) <==> StoredBefore(ops, answers, i, k) || StoredAt(ops, answers, i, k)
  {
    if StoredAt(ops, answers, i, k) {
      assert StoredBefore(ops, answers, i + 1, k);
    } else if StoredBefore(ops, answers, i + 1, k) {
      var j :| 0 <= j < i + 1 && StoredAt(ops, answers, j, k);
      assert j < i;
    }
  }

  lemma {:induction false} FirstOf(ops: seq<Op>, answers: seq<Answer>, i: nat, k: Key) returns (j: nat)
    requires |answers| == |ops| && i <= |ops| && StoredBefore(ops, answers, i, k)
    ensures j < i && FirstStored(ops, answers, j, k)
  {
    BeforeStep(ops, answers, i - 1, k);
    if StoredBefore(ops, answers, i - 1, k) {
      j := FirstOf(ops, answers, i - 1, k);
    } else {
      j := i - 1;
    }
  }

  lemma PutReply(c: Cache, ops: seq<Op>, i: nat)
    requires i < |ops| && ops[i].Put?
    ensures RightReply(c, ops, Replies(c, ops), i)
  {
    RepliesAt(c, ops, i);
    HeldAfter(c, ops, i, ops[i].key);
    FitsExactly(ApplyAll(c, ops[..i]), |ops[i].content|);
    hide Fits, PagesFor, PagesTaken;
  }

  lemma GetReply(c: Cache, ops: seq<Op>, i: nat)
    requires i < |ops| && ops[i].Get?
    ensures RightReply(c, ops, Replies(c, ops), i)
  {
    hide Apply, PagesTaken;
    var k, answers := ops[i].key, Replies(c, ops);
    RepliesAt(c, ops, i);
    HeldAfter(c, ops, i, k);
    if k in c.index {
      StoredStays(c, ops[..i], k);
    } else if StoredBefore(ops, answers, i, k) {
      var j := FirstOf(ops, answers, i, k);
      HeldAfter(c, ops, j, k);
      assert !StoredBefore(ops, answers, j, k);
      FirstContentWins(c, ops, j, i);
    }
  }

  // the rule looks at the answers before operation `i` only
  lemma {:induction false} SameBefore(c: Cache, ops: seq<Op>, a: seq<Answer>, b: seq<Answer>, i: nat)
    requires |a| == |b| == |ops| && i <= |ops|
    requires forall n :: 0 <= n < |ops| ==> RightReply(c, ops, a, n) && RightReply(c, ops, b, n)
    ensures forall n :: 0 <= n < i ==> a[n] == b[n]
    ensures PagesTaken(ops, a, i) == PagesTaken(ops, b, i)
  {
    hide PagesFor;
    if i > 0 {
      SameBefore(c, ops, a, b, i - 1);
      assert RightReply(c, ops, a, i - 1) && RightReply(c, ops, b, i - 1);
      if ops[i - 1].Get? { SameGet(c, ops, a, b, i - 1); }
    }
  }

  lemma SameGet(c: Cache, ops: seq<Op>, a: seq<Answer>, b: seq<Answer>, i: nat)
    requires |a| == |b| == |ops| && i < |ops| && ops[i].Get? && forall n :: 0 <= n < i ==> a[n] == b[n]
    requires RightReply(c, ops, a, i) && RightReply(c, ops, b, i)
    ensures a[i] == b[i]
  {
    var k := ops[i].key;
    assert forall n :: 0 <= n < i ==> StoredAt(ops, a, n, k) == StoredAt(ops, b, n, k);
    if k !in c.index && StoredBefore(ops, a, i, k) {
      var x :| 0 <= x < i && FirstStored(ops, a, x, k) && a[i] == Hit(ops[x].content);
      assert StoredAt(ops, b, x, k);
      var y :| 0 <= y < i && FirstStored(ops, b, y, k) && b[i] == Hit(ops[y].content);
      assert x == y;
    }
  }

  /** The answers of every run are the right ones, and there are no others. */
  lemma RepliesAreTheRule(c: Cache, ops: seq<Op>, answers: seq<Answer>)
    requires |answers| == |ops|
    ensures (forall i :: 0 <= i < |ops| ==> RightReply(c, ops, answers, i)) <==> answers == Replies(c, ops)
  {
    hide RightReply, Apply, Reply;
    var all := Replies(c, ops);
    forall i | 0 <= i < |ops| ensures RightReply(c, ops, all, i) {
      if ops[i].Put? { PutReply(c, ops, i); } else { GetReply(c, ops, i); }
    }
    if forall i :: 0 <= i < |ops| ==> RightReply(c, ops, answers, i) {
      SameBefore(c, ops, all, answers, |ops|);
    }
  }
}
