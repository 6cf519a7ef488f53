/** The pieces put together: messages cut by the chunker, over the joint protocol. */
module DedupTransfer {
  import opened ByteStrings
  import opened Settings
  import opened Probing
  import opened CacheSpec
  import opened Tiling
  import opened RollingHash
  import opened Chunker
  import opened Protocol
  import opened Invariants
  import opened Transparency
  import Progress

  datatype Transfer = Transfer(data: Bytes, buffer: Bytes)

  /** The message is no longer than the buffer posted for it, its size is an int as in the plugin's API, and
      its chunks keep within the arrays of a request.  (FitsRequest says for which lengths they do.) */
  predicate Posted(P: Params, t: Transfer)
    requires Legal(P)
  {
    && |t.data| <= |t.buffer| && |t.data| < 0x8000_0000
    && (|t.data| > THRESHOLD ==> |ChunkSizes(P, t.data)| <= MAX_FINGERPRINTS)
  }

  /** The message as the sender sees it once its fingerprints are computed. */
  function Cut(P: Params, fp: Bytes -> Key, t: Transfer): Msg
    requires Legal(P)
  {
    if |t.data| > THRESHOLD
    then Msg(t.data, t.buffer, ChunkSizes(P, t.data), Keys(fp, t.data, ChunkSizes(P, t.data)))
    else Msg(t.data, t.buffer, [], [])
  }

  /** The chunk contents of a message. */
  ghost predicate ChunksIn(P: Params, t: Transfer, contents: iset<Bytes>)
    requires Legal(P)
  {
    |t.data| > THRESHOLD ==>
      forall i :: 0 <= i < |ChunkSizes(P, t.data)| ==> Chunk(t.data, ChunkSizes(P, t.data), i) in contents
  }

  lemma CutOK(P: Params, c: Config, t: Transfer)
    requires Legal(P) && P.minChunk <= THRESHOLD && Posted(P, t) && ChunksIn(P, t, c.contents)
    ensures MsgOK(c, Cut(P, c.fp, t))
  {
    if |t.data| > THRESHOLD {
      ChunksTile(P, t.data);
      var m := Cut(P, c.fp, t);
      SumAtLeast(m.sizes, 1);
    }
    hide ChunkSizes, Tiles, Chunk;
  }

  /** The connection that carries the given transfers. */
  function Connection(P: Params, fp: Bytes -> Key, contents: iset<Bytes>, ts: seq<Transfer>): Config
    requires Legal(P)
  {
    Config(fp, contents, seq(|ts|, i requires 0 <= i < |ts| => Cut(P, fp, ts[i])))
  }

  /** The deduplicated connection does what plain copies would do: for any messages cut by the chunker,
      with any well-filed caches and any interleaving, every completed receive leaves in its buffer the
      bytes of the corresponding send followed by the untouched rest; and a run that cannot move any more
      has completed them all. */
  lemma DeliversLikePlainCopy(P: Params, fp: Bytes -> Key, contents: iset<Bytes>, ts: seq<Transfer>,
                              states: seq<State>, acts: seq<Action>, last: State)
    requires Legal(P) && P.minChunk <= THRESHOLD
    requires CollisionFree(Connection(P, fp, contents, ts))
    requires forall i :: 0 <= i < |ts| ==> Posted(P, ts[i]) && ChunksIn(P, ts[i], contents)
    requires Reaches(Connection(P, fp, contents, ts), states, acts, last)
    ensures |last.done| == last.rj <= |ts|
    ensures forall k :: 0 <= k < last.rj ==> Posted(P, ts[k]) && last.done[k] == Splice(ts[k].buffer, 0, ts[k].data)
    ensures (forall a :: Progress.IsMove(a) ==> !Enabled(Connection(P, fp, contents, ts), last, a)) ==> last.rj == |ts|
  {
    var c := Connection(P, fp, contents, ts);
    forall i | 0 <= i < |c.msgs| ensures MsgOK(c, c.msgs[i]) {
      CutOK(P, c, ts[i]);
    }
    hide MsgOK, CollisionFree, Reaches, Legal, ChunksIn, Enabled, Progress.Rest;
    DedupIsTransparent(c, states, acts, last);
    Progress.Completes(c, states, acts, last);
    forall k | 0 <= k < last.rj ensures last.done[k] == Splice(ts[k].buffer, 0, ts[k].data) {
      assert c.msgs[k] == Cut(P, fp, ts[k]);
      DeliveredIsCopy(P, fp, ts[k]);
    }
  }

  lemma DeliveredIsCopy(P: Params, fp: Bytes -> Key, t: Transfer)
    requires Legal(P) && Posted(P, t)
    ensures Delivered(Cut(P, fp, t)) == Splice(t.buffer, 0, t.data)
  {
    hide ChunkSizes;
    assert t.buffer[..0] == [];
  }

  /** With the source's settings a chunk never needs more pages than an entry has room for, so an insert
      can fail only for want of free pages; and then the cache is as it was. */
  lemma ChunksFitEntries(data: Bytes, i: nat, cache: Cache, k: Key)
    requires |data| > SETTINGS.minChunk && i < |ChunkSizes(SETTINGS, data)|
    ensures var piece := Chunk(data, ChunkSizes(SETTINGS, data), i);
            && |piece| == ChunkSizes(SETTINGS, data)[i] > 0
            && PagesFor(|piece|) <= MAX_PAGES - 1
            && (Fits(cache, |piece|) <==> PagesFor(|piece|) <= cache.free)
            && (!Fits(cache, |piece|) ==> Store(cache, k, piece) == cache)
  {
    var sizes := ChunkSizes(SETTINGS, data);
    ChunksTile(SETTINGS, data);
    ChunkInside(sizes, |data|, i);
    assert SizeOK(SETTINGS, sizes[i]);
    ChunkPages(sizes[i]);
    hide ChunkSizes, Tiles, Offset, PagesFor, SizeOK;
  }

  lemma ChunkPages(n: nat)
    requires SizeOK(SETTINGS, n)
    ensures n > 0 && PagesFor(n) <= MAX_PAGES - 1
  {
  }
}
