/** The page cache: a ring of free pages, content scattered over pages, and the index above them
    (fingerprint_cache.c). */
module PageCaches {
  import opened ByteStrings
  import opened Settings
  import opened Probing
  import opened FingerprintTables
  import opened CacheSpec

  // ---- content over pages ----

  predicate PagesIn(mem: Bytes, pages: seq<nat>)
  {
    forall i :: 0 <= i < |pages| ==> PAGE_SIZE * pages[i] + PAGE_SIZE <= |mem|
  }

  function PageAt(mem: Bytes, p: nat): Bytes
    requires PAGE_SIZE * p + PAGE_SIZE <= |mem|
  {
    mem[PAGE_SIZE * p..PAGE_SIZE * p + PAGE_SIZE]
  }

  /** The first `n` listed pages, in order. */
  function FullPages(mem: Bytes, pages: seq<nat>, n: nat): (r: Bytes)
    requires n <= |pages| && PagesIn(mem, pages)
    ensures |r| == PAGE_SIZE * n
  {
    if n == 0 then [] else FullPages(mem, pages, n - 1) + PageAt(mem, pages[n - 1])
  }

  predicate EntryShape(e: Entry)
  {
    e.size > 0 && |e.pages| == PagesFor(e.size)
  }

  /** The content an entry stands for: all but its last page in full, then the rest of the last one. */
  function Gather(mem: Bytes, e: Entry): (r: Bytes)
    requires EntryShape(e) && PagesIn(mem, e.pages)
    ensures |r| == e.size
  {
    var n := |e.pages| - 1;
    FullPages(mem, e.pages, n) + PageAt(mem, e.pages[n])[..e.size - PAGE_SIZE * n]
  }

  lemma {:induction false} FullPagesAt(mem: Bytes, pages: seq<nat>, n: nat, i: nat)
    requires n <= |pages| && PagesIn(mem, pages) && i < PAGE_SIZE * n
    ensures i / PAGE_SIZE < n
    ensures FullPages(mem, pages, n)[i] == mem[PAGE_SIZE * pages[i / PAGE_SIZE] + i % PAGE_SIZE]
  {
    if i < PAGE_SIZE * (n - 1) {
      FullPagesAt(mem, pages, n - 1, i);
    } else {
      assert i / PAGE_SIZE == n - 1;
    }
  }

  /** Byte by byte: where each byte of a content lies. */
  lemma GatherAt(mem: Bytes, e: Entry, i: nat)
    requires EntryShape(e) && PagesIn(mem, e.pages) && i < e.size
    ensures i / PAGE_SIZE < |e.pages|
    ensures Gather(mem, e)[i] == mem[PAGE_SIZE * e.pages[i / PAGE_SIZE] + i % PAGE_SIZE]
  {
    hide FullPages;
    var n := |e.pages| - 1;
    if i < PAGE_SIZE * n {
      FullPagesAt(mem, e.pages, n, i);
    } else {
      assert i / PAGE_SIZE == n;
    }
  }

  lemma {:induction false} FullPagesSame(mem: Bytes, mem': Bytes, pages: seq<nat>, n: nat)
    requires n <= |pages| && PagesIn(mem, pages) && PagesIn(mem', pages)
    requires forall i :: 0 <= i < n ==> PageAt(mem, pages[i]) == PageAt(mem', pages[i])
    ensures FullPages(mem, pages, n) == FullPages(mem', pages, n)
  {
    if n > 0 { FullPagesSame(mem, mem', pages, n - 1); }
  }

  /** Writing into a page leaves the other pages alone. */
  lemma OtherPage(mem: Bytes, p: nat, src: Bytes, q: nat)
    requires |src| <= PAGE_SIZE && PAGE_SIZE * p + PAGE_SIZE <= |mem| && PAGE_SIZE * q + PAGE_SIZE <= |mem|
    requires p != q
    ensures PageAt(Splice(mem, PAGE_SIZE * p, src), q) == PageAt(mem, q)
  {
    SpliceFrame(mem, PAGE_SIZE * p, src, PAGE_SIZE * q, PAGE_SIZE * q + PAGE_SIZE);
  }

  // ---- the cache invariant ----

  predicate Distinct(s: seq<nat>)
  {
    forall i, j :: 0 <= i < j < |s| ==> s[i] != s[j]
  }

  /** Entries own pages among the `handed` ones given out, each page once; every page given out is
      owned or was retired by a duplicate insert. */
  ghost predicate Ownership(m: map<Key, Entry>, retired: set<nat>, handed: nat)
  {
    && (forall k :: k in m ==> EntryShape(m[k]) && Distinct(m[k].pages))
    && (forall k, i :: k in m && 0 <= i < |m[k].pages| ==> m[k].pages[i] < handed && m[k].pages[i] !in retired)
    && (forall k, l, i, j :: k in m && l in m && k != l && 0 <= i < |m[k].pages| && 0 <= j < |m[l].pages| ==>
          m[k].pages[i] != m[l].pages[j])
    && (forall p :: p in retired ==> p < handed)
    && (forall p: nat :: p < handed ==> p in retired || p in Owned(m))
  }

  ghost function Owned(m: map<Key, Entry>): set<nat>
  {
    set k, p | k in m && p in m[k].pages :: p
  }

  /** Conservation: owned and retired pages are disjoint and together are all that were given out. */
  lemma Conservation(m: map<Key, Entry>, retired: set<nat>, handed: nat)
    requires Ownership(m, retired, handed)
    ensures Owned(m) !! retired
    ensures |Owned(m)| + |retired| == handed
  {
    assert Owned(m) + retired == Upto(handed);
  }

  /** An entry whose pages are the next ones after the `handed` given out before. */
  predicate Placed(e: Entry, handed: nat)
  {
    && EntryShape(e)
    && forall i :: 0 <= i < |e.pages| ==> e.pages[i] == handed + i
  }

  function PageSet(e: Entry): set<nat>
  {
    set p | p in e.pages
  }

  lemma RetireMore(m: map<Key, Entry>, retired: set<nat>, handed: nat, e: Entry)
    requires Ownership(m, retired, handed) && Placed(e, handed)
    ensures Ownership(m, retired + PageSet(e), handed + |e.pages|)
  {
    forall p: nat | handed <= p < handed + |e.pages| ensures p in e.pages {
      assert e.pages[p - handed] == p;
    }
  }

  lemma OwnMore(m: map<Key, Entry>, retired: set<nat>, handed: nat, k: Key, e: Entry)
    requires Ownership(m, retired, handed) && k !in m && Placed(e, handed)
    ensures |e.pages| == PagesFor(e.size) >= 1
    ensures Ownership(m[k := e], retired, handed + |e.pages|)
  {
    var m' := m[k := e];
    forall p: nat | p < handed + |e.pages| ensures p in retired || p in Owned(m') {
      if handed <= p {
        assert e.pages[p - handed] == p;
        assert p in m'[k].pages;
      } else if p in Owned(m) {
        var l :| l in m && p in m[l].pages;
        assert p in m'[l].pages;
      }
    }
  }

  ghost predicate Readable(mem: Bytes, m: map<Key, Entry>)
  {
    forall k :: k in m ==> EntryShape(m[k]) && PagesIn(mem, m[k].pages)
  }

  /** The contents that the index leads to. */
  ghost function Contents(mem: Bytes, m: map<Key, Entry>): map<Key, Bytes>
    requires Readable(mem, m)
  {
    map k | k in m :: Gather(mem, m[k])
  }

  lemma OwnedReadable(mem: Bytes, m: map<Key, Entry>, retired: set<nat>, handed: nat)
    requires Ownership(m, retired, handed) && PAGE_SIZE * handed <= |mem|
    ensures Readable(mem, m)
  {
  }

  lemma GatherSame(mem: Bytes, mem': Bytes, e: Entry)
    requires EntryShape(e) && PagesIn(mem, e.pages) && PagesIn(mem', e.pages)
    requires forall i :: 0 <= i < |e.pages| ==> PageAt(mem, e.pages[i]) == PageAt(mem', e.pages[i])
    ensures Gather(mem, e) == Gather(mem', e)
  {
    FullPagesSame(mem, mem', e.pages, |e.pages| - 1);
  }

  /** The pages given out so far are as they were. */
  ghost predicate SamePages(mem: Bytes, mem': Bytes, handed: nat)
    requires PAGE_SIZE * handed <= |mem| == |mem'|
  {
    forall q: nat :: q < handed ==> PageAt(mem, q) == PageAt(mem', q)
  }

  /** Rewriting pages that no entry owns does not change any content. */
  lemma ContentsSame(mem: Bytes, mem': Bytes, m: map<Key, Entry>, retired: set<nat>, handed: nat)
    requires Ownership(m, retired, handed) && PAGE_SIZE * handed <= |mem| == |mem'|
    requires SamePages(mem, mem', handed)
    ensures Readable(mem, m) && Readable(mem', m) && Contents(mem, m) == Contents(mem', m)
  {
    hide Gather, PageAt;
    forall k | k in m ensures Gather(mem, m[k]) == Gather(mem', m[k]) {
      GatherSame(mem, mem', m[k]);
    }
  }

  /** Looks a key up and inserts it when it is absent; the table has room. */
  method FindOrInsert(table: FingerprintTable, k: Key, candidate: Entry) returns (added: bool, entry: Entry)
    requires table.Valid() && k != 0 && table.cnt < table.size
    modifies table, table.words, table.items
    ensures table.Valid()
    ensures added == (k !in old(table.model))
    ensures table.model == if added then old(table.model)[k := candidate] else old(table.model)
    ensures table.cnt == old(table.cnt) + if added then 1 else 0
    ensures entry == table.model[k]
  {
    hide TableOK, FindSpec;
    var r;
    r, entry := table.Find(k, candidate);
    FindUse(table.size, table.hash, table.items[..], table.words[..], table.cnt, table.model, k, r);
    added := r == table.size;
    if added {
      TableFacts(table.size, table.hash, table.items[..], table.words[..], table.cnt, table.model, k);
      var stored, slot := table.Insert(k, entry);
      TableFacts(table.size, table.hash, table.items[..], table.words[..], table.cnt, table.model, k);
    }
  }

  class PageCache {
    const numPages: nat
    const table: FingerprintTable
    const mem: array<Byte>         // the pages themselves
    const freePages: array<nat>    // a ring of page numbers
    var numFree: nat
    var readInd: nat
    ghost var retired: set<nat>    // pages taken for content that turned out to be a duplicate

    /** The ring still holds the page numbers in order, and the next page to give out is the
        first that was not given out yet. */
    ghost predicate RingValid()
      reads this`numFree, this`readInd, freePages
    {
      && 0 < numPages == freePages.Length
      && numFree <= numPages
      && readInd == (if numFree == 0 then 0 else numPages - numFree)
      && (forall i :: 0 <= i < numPages ==> freePages[i] == i)
      && mem.Length == PAGE_SIZE * numPages
    }

    ghost predicate Valid()
      reads this, mem, freePages, table, table.words, table.items
    {
      && RingValid()
      && numPages < table.size
      && table.Valid()
      && Ownership(table.model, retired, numPages - numFree)
      // each entry owns a page, so the index cannot fill up
      && table.cnt <= numPages - numFree
    }

    ghost function View(): (c: Cache)
      requires Valid()
      reads this, mem, freePages, table, table.words, table.items
    {
      OwnedReadable(mem[..], table.model, retired, numPages - numFree);
      Cache(Contents(mem[..], table.model), numFree)
    }

    constructor (numPages: nat, tableSize: nat, hash: Hash)
      requires 0 < numPages < tableSize && HashInto(hash, tableSize)
      ensures Valid() && fresh(mem) && fresh(freePages) && fresh(table) && fresh(table.words) && fresh(table.items)
      ensures View() == Cache(map[], numPages) && retired == {}
    {
      this.numPages := numPages;
      table := new FingerprintTable(tableSize, hash);
      mem := new Byte[PAGE_SIZE * numPages](_ => 0);
      numFree := numPages;
      readInd := 0;
      retired := {};
      var ring := new nat[numPages](i => i);
      freePages := ring;
    }

    /** Takes `n` pages from the ring, or none at all. */
    method GetFreePages(n: nat) returns (ok: bool, pages: seq<nat>)
      requires RingValid()
      modifies this`numFree, this`readInd
      ensures RingValid()
      ensures ok == (n <= MAX_PAGES && n <= old(numFree))
      ensures numFree == if ok then old(numFree) - n else old(numFree)
      ensures ok ==> |pages| == n && forall i :: 0 <= i < n ==> pages[i] == numPages - old(numFree) + i
    {
      pages := [];
      if n > MAX_PAGES || n > numFree {
        return false, pages;
      }
      ghost var handed := numPages - numFree;
      var cur := readInd;
      for i := 0 to n
        invariant |pages| == i && forall j :: 0 <= j < i ==> pages[j] == handed + j
        invariant cur == if handed + i == numPages then 0 else handed + i
      {
        pages := pages + [freePages[cur]];
        assert cur + 1 == numPages ==> (cur + 1) % numPages == 0;
        cur := (cur + 1) % numPages;
      }
      numFree := numFree - n;
      readInd := cur;
      return true, pages;
    }

    /** Scatters the content over the given pages, the last of which may stay partly unused. */
    method WritePages(pages: seq<nat>, content: Bytes, ghost handed: nat)
      requires |content| > 0 && |pages| == PagesFor(|content|)
      requires mem.Length == PAGE_SIZE * numPages && handed + |pages| <= numPages
      requires forall i :: 0 <= i < |pages| ==> pages[i] == handed + i
      modifies mem
      ensures PagesIn(mem[..], pages)
      ensures Gather(mem[..], Entry(|content|, pages)) == content
      ensures SamePages(old(mem[..]), mem[..], handed)
    {
      hide Gather, PageAt, FullPages;
      var n := |pages|;
      var at := 0;
      FullPagesNone(mem[..], pages);
      for i := 0 to n - 1
        invariant at == PAGE_SIZE * i
        invariant PagesIn(mem[..], pages)
        invariant FullPages(mem[..], pages, i) == content[..PAGE_SIZE * i]
        invariant SamePages(old(mem[..]), mem[..], handed)
      {
        ghost var before := mem[..];
        var piece := content[at..at + PAGE_SIZE];
        Memcpy(mem, PAGE_SIZE * pages[i], piece);
        WroteFull(old(mem[..]), before, pages, i, handed, piece);
        assert content[..PAGE_SIZE * i] + piece == content[..PAGE_SIZE * (i + 1)];
        at := at + PAGE_SIZE;
      }
      var remain := |content| % PAGE_SIZE;
      if remain == 0 {
        remain := PAGE_SIZE;
      }
      ghost var before := mem[..];
      assert content[at..at + remain] == content[PAGE_SIZE * (n - 1)..];
      Memcpy(mem, PAGE_SIZE * pages[n - 1], content[at..at + remain]);
      WroteLast(old(mem[..]), before, pages, handed, content);
    }

    /** Takes pages for the content and writes it there; the index is not involved. */
    method PlaceContent(content: Bytes) returns (ok: bool, entry: Entry)
      requires RingValid() && |content| > 0
      modifies this`numFree, this`readInd, mem
      ensures RingValid()
      ensures ok == (PagesFor(|content|) <= MAX_PAGES && PagesFor(|content|) <= old(numFree))
      ensures !ok ==> numFree == old(numFree) && mem[..] == old(mem[..])
      ensures ok ==>
                var handed := numPages - old(numFree);
                && numFree == old(numFree) - PagesFor(|content|)
                && Placed(entry, handed) && PagesIn(mem[..], entry.pages)
                && entry.size == |content| && Gather(mem[..], entry) == content
                && SamePages(old(mem[..]), mem[..], handed)
    {
      hide Gather, SamePages, PageAt;
      entry := Entry(0, []);
      var pages;
      ghost var handed := numPages - numFree;
      ok, pages := GetFreePages(PagesFor(|content|));
      if ok {
        entry := Entry(|content|, pages);
        WritePages(pages, content, handed);
      }
    }

    /** Stores content under a fingerprint.  Pages are taken and written first; if the fingerprint
        turns out to be present, they are lost and the entry found is returned. */
    method Insert(k: Key, content: Bytes) returns (ok: bool, entry: Entry)
      requires Valid() && k != 0 && |content| > 0
      modifies this, mem, table, table.words, table.items
      ensures Valid()
      ensures ok == Fits(old(View()), |content|)
      ensures View() == Store(old(View()), k, content)
      ensures ok ==> k in table.model && entry == table.model[k]
      ensures !ok ==> table.model == old(table.model) && mem[..] == old(mem[..]) && retired == old(retired)
      ensures ok && k in old(table.model) ==>
                |retired| == |old(retired)| + PagesFor(|content|) && table.model == old(table.model)
      ensures ok && k !in old(table.model) ==> retired == old(retired)
    {
      hide TableOK, FindSpec, Ownership, SamePages, Gather, Readable, PagesIn, Placed, RingValid, Contents, PagesFor;
      ghost var handed := numPages - numFree;
      ghost var m := table.model;
      RingFacts();
      ok, entry := PlaceContent(content);
      RingFacts();
      if ok {
        PlacedFacts(entry, handed);
        ContentsSame(old(mem[..]), mem[..], m, retired, handed);
        var placed := entry;
        entry := Publish(k, placed, handed);
        PublishedContents(mem[..], m, k, placed, content);
      }
    }

    /** Records a placed entry in the index, unless the fingerprint is there already. */
    method Publish(k: Key, placed: Entry, ghost handed: nat) returns (entry: Entry)
      requires RingValid() && table.Valid() && numPages < table.size && k != 0
      requires Ownership(table.model, retired, handed) && table.cnt <= handed < numPages
      requires Placed(placed, handed) && handed + |placed.pages| == numPages - numFree
      modifies this`retired, table, table.words, table.items
      ensures Valid()
      ensures table.model == if k in old(table.model) then old(table.model) else old(table.model)[k := placed]
      ensures entry == table.model[k]
      ensures |retired| == |old(retired)| + if k in old(table.model) then |placed.pages| else 0
      ensures k !in old(table.model) ==> retired == old(retired)
    {
      hide TableOK, Ownership, Placed, RingValid, PageSet, PagesFor;
      ghost var m := table.model;
      PlacedFacts(placed, handed);
      var added;
      added, entry := FindOrInsert(table, k, placed);
      if added {
        OwnMore(m, retired, handed, k, placed);
      } else {
        RetireMore(m, retired, handed, placed);
        RetiredCount(m, retired, handed, placed);
        retired := retired + PageSet(placed);
      }
    }

    /** No page is lost, and the index always has an empty slot: its entries own at least a page each. */
    lemma PagesConserved()
      requires Valid()
      ensures numFree + |Owned(table.model)| + |retired| == numPages
      ensures Owned(table.model) !! retired
      ensures table.cnt == |table.model| <= |Owned(table.model)| + |retired| <= numPages < table.size
    {
      TableFacts(table.size, table.hash, table.items[..], table.words[..], table.cnt, table.model, 1);
      Conservation(table.model, retired, numPages - numFree);
    }

    lemma RingFacts()
      requires RingValid()
      ensures numFree <= numPages && mem.Length == PAGE_SIZE * numPages
    {
    }

    /** Finds the entry of a fingerprint.  The all-zero one is answered with the empty entry of the extra slot
        of a wrapped probe, or not at all. */
    method Lookup(k: Key, prior: Entry) returns (found: bool, entry: Entry)
      requires Valid()
      ensures k != 0 ==> found == (k in table.model)
      ensures k != 0 ==> entry == if found then table.model[k] else prior
      ensures k != 0 && found ==> EntryShape(entry) && PagesIn(mem[..], entry.pages)
      ensures k != 0 && found ==> k in View().index && View().index[k] == Gather(mem[..], entry)
      ensures k != 0 && !found ==> k !in View().index
      ensures k == 0 ==> entry == if found then Entry(0, []) else prior
    {
      hide TableOK, FindSpec;
      TableFacts(table.size, table.hash, table.items[..], table.words[..], table.cnt, table.model, k);
      var r;
      r, entry := table.Find(k, prior);
      FindUse(table.size, table.hash, table.items[..], table.words[..], table.cnt, table.model, k, r);
      found := r < table.size;
    }

    /** Copies the content of an entry to `dest`, page by page. */
    method CopyContent(dest: array<Byte>, at: nat, entry: Entry)
      requires mem != dest && EntryShape(entry) && PagesIn(mem[..], entry.pages)
      requires at + entry.size <= dest.Length
      modifies dest
      ensures dest[..] == Splice(old(dest[..]), at, Gather(mem[..], entry))
    {
      hide Splice, PageAt, Gather;
      var n := |entry.pages|;
      var cur := at;
      SpliceNone(dest[..], at);
      for i := 0 to n - 1
        invariant cur == at + PAGE_SIZE * i
        invariant mem[..] == old(mem[..])
        invariant dest[..] == Splice(old(dest[..]), at, FullPages(mem[..], entry.pages, i))
      {
        hide *;
        CopyStep(old(dest[..]), at, mem[..], entry, i);
        var page := PAGE_SIZE * entry.pages[i];
        Memcpy(dest, cur, mem[page..page + PAGE_SIZE]);
        cur := cur + PAGE_SIZE;
      }
      var remain := entry.size % PAGE_SIZE;
      if remain == 0 {
        remain := PAGE_SIZE;
      }
      LastPage(entry.size);
      hide *;
      CopyLast(old(dest[..]), at, mem[..], entry, n - 1, remain);
      var page := PAGE_SIZE * entry.pages[n - 1];
      Memcpy(dest, cur, mem[page..page + remain]);
    }
  }

  // one more full page of a content being copied out
  lemma CopyStep(dst: Bytes, at: nat, mem: Bytes, e: Entry, i: nat)
    requires EntryShape(e) && PagesIn(mem, e.pages) && i < |e.pages| - 1
    requires at + e.size <= |dst|
    ensures var page := PAGE_SIZE * e.pages[i];
            && at + PAGE_SIZE * (i + 1) <= |dst| && page + PAGE_SIZE <= |mem|
            && Splice(dst, at, FullPages(mem, e.pages, i + 1))
               == Splice(Splice(dst, at, FullPages(mem, e.pages, i)), at + PAGE_SIZE * i, mem[page..page + PAGE_SIZE])
  {
    SpliceJoin(dst, at, FullPages(mem, e.pages, i), PageAt(mem, e.pages[i]));
  }

  lemma LastPage(size: nat)
    requires size > 0
    ensures var n := PagesFor(size) - 1;
            var remain := if size % PAGE_SIZE == 0 then PAGE_SIZE else size % PAGE_SIZE;
            n >= 0 && PAGE_SIZE * n + remain == size && 0 < remain <= PAGE_SIZE
  {
  }

  lemma PageHead(mem: Bytes, p: nat, n: nat)
    requires PAGE_SIZE * p + PAGE_SIZE <= |mem| && n <= PAGE_SIZE
    ensures PageAt(mem, p)[..n] == mem[PAGE_SIZE * p..PAGE_SIZE * p + n]
  {
  }

  lemma CopyLast(dst: Bytes, at: nat, mem: Bytes, e: Entry, n: nat, remain: nat)
    requires EntryShape(e) && PagesIn(mem, e.pages) && n == |e.pages| - 1
    requires PAGE_SIZE * n + remain == e.size && 0 < remain <= PAGE_SIZE
    requires at + e.size <= |dst|
    ensures PAGE_SIZE * e.pages[n] + remain <= |mem|
    ensures Splice(dst, at, Gather(mem, e))
            == Splice(Splice(dst, at, FullPages(mem, e.pages, n)), at + PAGE_SIZE * n,
                      mem[PAGE_SIZE * e.pages[n]..PAGE_SIZE * e.pages[n] + remain])
  {
    var head, tail := FullPages(mem, e.pages, n), PageAt(mem, e.pages[n])[..remain];
    PageHead(mem, e.pages[n], remain);
    GatherIs(mem, e, n, remain);
    hide *;
    SpliceJoin(dst, at, head, tail);
  }

  lemma GatherIs(mem: Bytes, e: Entry, n: nat, remain: nat)
    requires EntryShape(e) && PagesIn(mem, e.pages) && n == |e.pages| - 1
    requires PAGE_SIZE * n + remain == e.size && remain <= PAGE_SIZE
    ensures Gather(mem, e) == FullPages(mem, e.pages, n) + PageAt(mem, e.pages[n])[..remain]
  {
  }

  lemma SpliceNone(dst: Bytes, at: nat)
    requires at <= |dst|
    ensures Splice(dst, at, []) == dst
  {
  }

  lemma FullPagesNone(mem: Bytes, pages: seq<nat>)
    requires PagesIn(mem, pages)
    ensures FullPages(mem, pages, 0) == []
  {
  }

  // one more page of a content being scattered over pages handed, handed + 1, ...
  lemma WroteFull(mem0: Bytes, mem: Bytes, pages: seq<nat>, i: nat, handed: nat, piece: Bytes)
    requires i < |pages| && PagesIn(mem, pages) && |piece| == PAGE_SIZE
    requires forall j :: 0 <= j < |pages| ==> pages[j] == handed + j
    requires PAGE_SIZE * handed <= |mem0| == |mem| && SamePages(mem0, mem, handed)
    ensures var mem' := Splice(mem, PAGE_SIZE * pages[i], piece);
            && PagesIn(mem', pages)
            && FullPages(mem', pages, i + 1) == FullPages(mem, pages, i) + piece
            && SamePages(mem0, mem', handed)
  {
    OthersKept(mem, pages, i, handed, piece);
    var mem' := Splice(mem, PAGE_SIZE * pages[i], piece);
    FullPagesSame(mem, mem', pages, i);
    SpliceWrote(mem, PAGE_SIZE * pages[i], piece);
    assert PageAt(mem', pages[i]) == piece;
  }

  lemma OthersKept(mem: Bytes, pages: seq<nat>, i: nat, handed: nat, piece: Bytes)
    requires i < |pages| && PagesIn(mem, pages) && |piece| <= PAGE_SIZE
    requires forall j :: 0 <= j < |pages| ==> pages[j] == handed + j
    requires PAGE_SIZE * handed <= |mem|
    ensures var mem' := Splice(mem, PAGE_SIZE * pages[i], piece);
            && PagesIn(mem', pages)
            && SamePages(mem, mem', handed)
            && forall j :: 0 <= j < i ==> PageAt(mem, pages[j]) == PageAt(mem', pages[j])
  {
    var mem' := Splice(mem, PAGE_SIZE * pages[i], piece);
    forall q: nat | q < handed ensures PageAt(mem, q) == PageAt(mem', q) {
      OtherPage(mem, pages[i], piece, q);
    }
    forall j | 0 <= j < i ensures PageAt(mem, pages[j]) == PageAt(mem', pages[j]) {
      OtherPage(mem, pages[i], piece, pages[j]);
    }
  }

  lemma WroteLast(mem0: Bytes, mem: Bytes, pages: seq<nat>, handed: nat, content: Bytes)
    requires |content| > 0 && |pages| == PagesFor(|content|) && PagesIn(mem, pages)
    requires forall j :: 0 <= j < |pages| ==> pages[j] == handed + j
    requires PAGE_SIZE * handed <= |mem0| == |mem| && SamePages(mem0, mem, handed)
    requires FullPages(mem, pages, |pages| - 1) == content[..PAGE_SIZE * (|pages| - 1)]
    ensures var n := |pages| - 1;
            var mem' := Splice(mem, PAGE_SIZE * pages[n], content[PAGE_SIZE * n..]);
            && PagesIn(mem', pages)
            && Gather(mem', Entry(|content|, pages)) == content
            && SamePages(mem0, mem', handed)
  {
    var n := |pages| - 1;
    var rest := content[PAGE_SIZE * n..];
    OthersKept(mem, pages, n, handed, rest);
    var mem' := Splice(mem, PAGE_SIZE * pages[n], rest);
    FullPagesSame(mem, mem', pages, n);
    SpliceWrote(mem, PAGE_SIZE * pages[n], rest);
    assert PageAt(mem', pages[n])[..|rest|] == rest;
  }

  lemma PlacedFacts(e: Entry, handed: nat)
    requires Placed(e, handed)
    ensures EntryShape(e)
    ensures e.size > 0 && |e.pages| == PagesFor(e.size) >= 1
  {
  }

  lemma PublishedContents(mem: Bytes, m: map<Key, Entry>, k: Key, e: Entry, content: Bytes)
    requires Readable(mem, m)
    requires EntryShape(e) && PagesIn(mem, e.pages) && Gather(mem, e) == content
    ensures Readable(mem, m[k := e])
    ensures Contents(mem, m[k := e]) == Contents(mem, m)[k := content]
    ensures k in Contents(mem, m) <==> k in m
  {
    hide Gather, PagesIn, EntryShape;
  }

  lemma {:induction false} TakenCount(e: Entry, base: nat, n: nat)
    requires n <= |e.pages| && forall i :: 0 <= i < |e.pages| ==> e.pages[i] == base + i
    ensures |PageSet(e.(pages := e.pages[..n]))| == n
  {
    if n > 0 {
      TakenCount(e, base, n - 1);
      assert e.pages[..n] == e.pages[..n - 1] + [base + n - 1];
      assert PageSet(e.(pages := e.pages[..n])) == PageSet(e.(pages := e.pages[..n - 1])) + {base + n - 1};
    }
  }

  lemma RetiredCount(m: map<Key, Entry>, retired: set<nat>, handed: nat, e: Entry)
    requires Ownership(m, retired, handed) && Placed(e, handed)
    ensures |retired + PageSet(e)| == |retired| + |e.pages|
  {
    hide Ownership;
    TakenCount(e, handed, |e.pages|);
    assert e.pages[..|e.pages|] == e.pages;
    RetiredBelow(m, retired, handed);
    assert retired !! PageSet(e);
  }

  lemma RetiredBelow(m: map<Key, Entry>, retired: set<nat>, handed: nat)
    requires Ownership(m, retired, handed)
    ensures forall p :: p in retired ==> p < handed
  {
  }
}
