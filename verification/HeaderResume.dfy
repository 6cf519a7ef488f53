/** Resuming a header that moved in part (net_dedup.c:724-740, 959-976, 1403-1419, 1496-1513).

    The offset is added to a pointer to the struct, so it counts whole structs: a call that resumes after
    `o` bytes works at byte `size * o` from the header, not at byte `o`. */
module HeaderResume {
  import opened ByteStrings

  /** The calls move these numbers of bytes, and the header in all. */
  predicate Moves(ks: seq<nat>, size: nat)
  {
    if ks == [] then size == 0 else ks[0] <= size && Moves(ks[1..], size - ks[0])
  }

  /** Some call moved the whole header. */
  predicate Whole(ks: seq<nat>, size: nat)
  {
    exists i :: 0 <= i < |ks| && ks[i] == size
  }

  /** Memory from the header on, long enough for every place a resumed call works at. */
  predicate Room(mem: Bytes, size: nat)
  {
    |mem| >= size * size + size
  }

  lemma InRoom(mem: Bytes, size: nat, o: nat, k: nat)
    requires Room(mem, size) && o + k <= size
    ensures size * o + k <= |mem|
  {
    assert size * o <= size * size;
  }

  /** What the calls put on the wire, from offset `o` on. */
  function Sent(mem: Bytes, size: nat, o: nat, ks: seq<nat>): (b: Bytes)
    requires Room(mem, size) && o <= size && Moves(ks, size - o)
    ensures |b| == size - o
    decreases |ks|
  {
    if ks == [] then []
    else
      InRoom(mem, size, o, ks[0]);
      mem[size * o..size * o + ks[0]] + Sent(mem, size, o + ks[0], ks[1..])
  }

  /** What a receiver's calls leave in memory when `b` comes in. */
  function Received(mem: Bytes, size: nat, o: nat, ks: seq<nat>, b: Bytes): (r: Bytes)
    requires Room(mem, size) && o <= size && |b| == size - o && Moves(ks, size - o)
    ensures |r| == |mem|
    decreases |ks|
  {
    if ks == [] then mem
    else
      InRoom(mem, size, o, ks[0]);
      Received(Splice(mem, size * o, b[..ks[0]]), size, o + ks[0], ks[1..], b[ks[0]..])
  }

  // nothing moves once the header is through
  lemma {:induction false} SentNothing(mem: Bytes, size: nat, ks: seq<nat>)
    requires Room(mem, size) && Moves(ks, 0)
    ensures Sent(mem, size, size, ks) == []
  {
  }

  /** A header sent in one go arrives as it is; empty calls before it do no harm. */
  lemma {:induction false} WholeSent(mem: Bytes, size: nat, ks: seq<nat>)
    requires Room(mem, size) && Moves(ks, size) && Whole(ks, size) && size > 0
    ensures Sent(mem, size, 0, ks) == mem[..size]
    decreases |ks|
  {
    if ks[0] == size {
      SentNothing(mem, size, ks[1..]);
    } else {
      var i :| 0 <= i < |ks| && ks[i] == size;
      SumTail(ks[1..], size - ks[0], i - 1);
      assert ks[1..][i - 1] == size;
      WholeSent(mem, size, ks[1..]);
    }
  }

  lemma {:induction false} SumTail(ks: seq<nat>, size: nat, i: nat)
    requires Moves(ks, size) && i < |ks|
    ensures ks[i] <= size
  {
    if i > 0 { SumTail(ks[1..], size - ks[0], i - 1); }
  }

  // a header of zeros with ones behind it
  function Marked(size: nat): (mem: Bytes)
    ensures Room(mem, size)
  {
    seq(size, _ => 0) + seq(size * size, _ => 1)
  }

  // resumed past its start, a call sends a one
  lemma {:induction false} ResumedSendsOne(size: nat, o: nat, ks: seq<nat>)
    requires 0 < o < size && Moves(ks, size - o)
    ensures Sent(Marked(size), size, o, ks)[0] == 1
    decreases |ks|
  {
    var mem := Marked(size);
    hide Marked;
    if ks[0] == 0 {
      ResumedSendsOne(size, o, ks[1..]);
      InRoom(mem, size, o, 0);
      assert mem[size * o..size * o] == [];
    } else {
      InRoom(mem, size, o, ks[0]);
      MarkedBehind(size, o);
    }
  }

  lemma MarkedBehind(size: nat, o: nat)
    requires 0 < o < size
    ensures size * o < |Marked(size)| && Marked(size)[size * o] == 1
  {
    InRoom(Marked(size), size, o, 1);
    assert size <= size * o;
  }

  lemma {:induction false} PartialSent(size: nat, ks: seq<nat>)
    requires size > 0 && Moves(ks, size) && !Whole(ks, size)
    ensures Sent(Marked(size), size, 0, ks) != Marked(size)[..size]
    decreases |ks|
  {
    var mem := Marked(size);
    assert ks[0] != size;
    if ks[0] == 0 {
      forall i | 0 <= i < |ks| - 1 ensures ks[1..][i] != size { assert ks[i + 1] != size; }
      PartialSent(size, ks[1..]);
      assert mem[0..0] == [];
    } else {
      ResumedSendsOne(size, ks[0], ks[1..]);
      assert Sent(mem, size, 0, ks)[ks[0]] == 1;
      assert mem[..size][ks[0]] == 0;
    }
  }

  /** The header arrives as it is, whatever stands behind it in memory, exactly when one call moved all
      of it. */
  lemma HeaderSentIff(size: nat, ks: seq<nat>)
    requires size > 0 && Moves(ks, size)
    ensures (forall mem: Bytes :: Room(mem, size) ==> Sent(mem, size, 0, ks) == mem[..size]) <==> Whole(ks, size)
  {
    if Whole(ks, size) {
      forall mem: Bytes | Room(mem, size) ensures Sent(mem, size, 0, ks) == mem[..size] {
        WholeSent(mem, size, ks);
      }
    } else {
      PartialSent(size, ks);
    }
  }

  lemma {:induction false} ReceivedNothing(mem: Bytes, size: nat, ks: seq<nat>)
    requires Room(mem, size) && Moves(ks, 0)
    ensures Received(mem, size, size, ks, []) == mem
    decreases |ks|
  {
    if ks != [] {
      InRoom(mem, size, size, 0);
      assert Splice(mem, size * size, []) == mem;
      ReceivedNothing(mem, size, ks[1..]);
    }
  }

  lemma {:induction false} WholeReceived(mem: Bytes, size: nat, ks: seq<nat>, b: Bytes)
    requires Room(mem, size) && Moves(ks, size) && Whole(ks, size) && size > 0 && |b| == size
    ensures Received(mem, size, 0, ks, b)[..size] == b
    decreases |ks|
  {
    if ks[0] == size {
      assert b[..size] == b && b[size..] == [];
      ReceivedNothing(Splice(mem, 0, b), size, ks[1..]);
    } else {
      var i :| 0 <= i < |ks| && ks[i] == size;
      SumTail(ks[1..], size - ks[0], i - 1);
      assert ks[1..][i - 1] == size;
      assert b[..0] == [] && b[0..] == b && Splice(mem, 0, []) == mem;
      WholeReceived(mem, size, ks[1..], b);
    }
  }

  // a resumed call writes behind the header
  lemma {:induction false} ResumedLeavesHeader(mem: Bytes, size: nat, o: nat, ks: seq<nat>, b: Bytes)
    requires Room(mem, size) && 0 < o <= size && |b| == size - o && Moves(ks, size - o)
    ensures Received(mem, size, o, ks, b)[..size] == mem[..size]
    decreases |ks|
  {
    if ks != [] {
      InRoom(mem, size, o, ks[0]);
      assert size <= size * o;
      SpliceFrame(mem, size * o, b[..ks[0]], 0, size);
      ResumedLeavesHeader(Splice(mem, size * o, b[..ks[0]]), size, o + ks[0], ks[1..], b[ks[0]..]);
    }
  }

  lemma {:induction false} PartialReceived(mem: Bytes, size: nat, ks: seq<nat>, b: Bytes)
    requires Room(mem, size) && size > 0 && Moves(ks, size) && !Whole(ks, size) && |b| == size
    requires forall i :: 0 <= i < size ==> b[i] != mem[i]
    ensures Received(mem, size, 0, ks, b)[..size] != b
    decreases |ks|
  {
    assert ks[0] != size;
    if ks[0] == 0 {
      forall i | 0 <= i < |ks| - 1 ensures ks[1..][i] != size { assert ks[i + 1] != size; }
      assert b[..0] == [] && b[0..] == b && Splice(mem, 0, []) == mem;
      PartialReceived(mem, size, ks[1..], b);
    } else {
      var mem' := Splice(mem, 0, b[..ks[0]]);
      ResumedLeavesHeader(mem', size, ks[0], ks[1..], b[ks[0]..]);
      assert mem'[..size][ks[0]] == mem[ks[0]];
    }
  }

  /** And a receiver has the header that was sent, whatever was there before, exactly when one call took
      all of it. */
  lemma HeaderReceivedIff(size: nat, ks: seq<nat>)
    requires size > 0 && Moves(ks, size)
    ensures (forall mem: Bytes, b: Bytes :: Room(mem, size) && |b| == size ==> Received(mem, size, 0, ks, b)[..size] == b)
            <==> Whole(ks, size)
  {
    if Whole(ks, size) {
      forall mem: Bytes, b: Bytes | Room(mem, size) && |b| == size
        ensures Received(mem, size, 0, ks, b)[..size] == b
      {
        WholeReceived(mem, size, ks, b);
      }
    } else {
      var b: Bytes := seq(size, _ => 1);
      PartialReceived(Marked(size), size, ks, b);
    }
  }
}
