/** Whole runs of the page cache against its specification. */
module CacheRuns {
  import opened ByteStrings
  import opened Probing
  import opened FingerprintTables
  import opened CacheSpec
  import opened PageCaches

  predicate Allowed(op: Op)
  {
    op.key != 0 && (op.Put? ==> op.content != [])
  }

  /** Inserts, or looks up and copies out. */
  method Perform(cache: PageCache, op: Op) returns (answer: Answer)
    requires cache.Valid() && Allowed(op)
    modifies cache, cache.mem, cache.table, cache.table.words, cache.table.items
    ensures cache.Valid()
    ensures cache.View() == Apply(old(cache.View()), op) && answer == Reply(old(cache.View()), op)
  {
    hide TableOK, Ownership, Contents, Gather, Readable;
    match op {
      case Put(k, content) =>
        var ok, entry := cache.Insert(k, content);
        answer := if ok then Stored else Full;
      case Get(k) =>
        var found, entry := cache.Lookup(k, Entry(0, []));
        if found {
          var content := Fetch(cache, entry);
          answer := Hit(content);
        } else {
          answer := Missing;
        }
    }
  }

  method Fetch(cache: PageCache, entry: Entry) returns (content: Bytes)
    requires EntryShape(entry) && PagesIn(cache.mem[..], entry.pages)
    ensures content == Gather(cache.mem[..], entry)
  {
    hide Gather, PagesIn, EntryShape;
    var buffer := new Byte[entry.size](_ => 0);
    cache.CopyContent(buffer, 0, entry);
    content := buffer[..];
  }

  /** From the initial cache, every run of successful, duplicate and refused inserts, lookups and copies
      answers as the specification does. */
  method Run(numPages: nat, tableSize: nat, hash: Hash, ops: seq<Op>) returns (answers: seq<Answer>)
    requires 0 < numPages < tableSize && HashInto(hash, tableSize)
    requires forall i :: 0 <= i < |ops| ==> Allowed(ops[i])
    ensures answers == Replies(Cache(map[], numPages), ops)
  {
    hide Apply, Reply, HashInto, Allowed, TableOK, Ownership, Contents, Gather, Readable;
    answers := [];
    var cache := new PageCache(numPages, tableSize, hash);
    for i := 0 to |ops|
      invariant cache.Valid()
      invariant fresh(cache) && fresh(cache.mem) && fresh(cache.table)
      invariant fresh(cache.table.words) && fresh(cache.table.items)
      invariant answers + Replies(cache.View(), ops[i..]) == Replies(Cache(map[], numPages), ops)
    {
      assert ops[i..][0] == ops[i] && ops[i..][1..] == ops[i + 1..];
      var a := Perform(cache, ops[i]);
      answers := answers + [a];
    }
  }
}
