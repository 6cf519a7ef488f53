/** The word-wise search of the emptiness bit vector (fingerprint_table.c:67-130). */
module EmptySearch {
  import opened Words
  import opened Probing

  // MY_CEIL(size, 64)
  function WordCount(size: nat): nat
  {
    (size + WORD_BITS - 1) / WORD_BITS
  }

  /** The vector covers `size` slots, and the bits past the last slot never claim to be empty. */
  ghost predicate Covers(ws: seq<Word>, size: nat)
  {
    && WordCount(size) <= |ws|
    && forall u, b :: 0 <= u < WordCount(size) && 0 <= b < WORD_BITS && size <= WORD_BITS * u + b ==> !ws[u][b]
  }

  /** Which slots the vector marks as empty. */
  ghost function Empties(ws: seq<Word>, size: nat): (e: seq<bool>)
    requires WordCount(size) <= |ws|
    ensures |e| == size
    ensures forall p :: 0 <= p < size ==> e[p] == ws[p / WORD_BITS][p % WORD_BITS]
  {
    seq(size, p requires 0 <= p < size => ws[p / WORD_BITS][p % WORD_BITS])
  }

  /** Word number `v` of a circular vector of `n` words, for one turn at most. */
  function Wrap(v: nat, n: nat): (u: nat)
  {
    if v < n then v else v - n
  }

  lemma WrapIsMod(v: nat, n: nat)
    requires v < 2 * n
    ensures Wrap(v, n) == v % n
  {
    if v >= n { assert v == n * 1 + (v - n); }
  }

  /** The word the search is looking at: the first one without the bits below the start. */
  function Looking(ws: seq<Word>, n: nat, sv: nat, sb: nat, cur: nat): Word
    requires sv < n <= |ws| && sv <= cur <= sv + n
  {
    if cur == sv then And(ws[sv], Shl(Ones(), sb)) else ws[Wrap(cur, n)]
  }

  /** The scan that began in word `sv` at bit `sb` and is about to look at word `cur` (counted without
      wrapping) has met no set bit. */
  ghost predicate Scanned(ws: seq<Word>, n: nat, sv: nat, sb: nat, cur: nat)
    requires sv < n <= |ws|
  {
    && (sv < cur ==> forall b :: sb <= b < WORD_BITS ==> !ws[sv][b])
    && (forall u :: 0 <= u < n && (sv < u < cur || u + n < cur) ==> IsZero(ws[u]))
  }

  lemma ScanStep(ws: seq<Word>, n: nat, sv: nat, sb: nat, cur: nat)
    requires sv < n <= |ws| && sb < WORD_BITS && sv <= cur <= sv + n
    requires Scanned(ws, n, sv, sb, cur) && IsZero(Looking(ws, n, sv, sb, cur))
    ensures Scanned(ws, n, sv, sb, cur + 1)
  {
    var search := Looking(ws, n, sv, sb, cur);
    if cur == sv {
      forall b | sb <= b < WORD_BITS ensures !ws[sv][b] {
        assert !search[b];
      }
    }
  }

  lemma ScanHit(ws: seq<Word>, size: nat, n: nat, start: nat, sv: nat, sb: nat, cur: nat, bit: nat)
    requires Covers(ws, size) && n == WordCount(size) && start < size
    requires start == WORD_BITS * sv + sb && sb < WORD_BITS && sv <= cur <= sv + n
    requires Scanned(ws, n, sv, sb, cur)
    requires bit < WORD_BITS && Looking(ws, n, sv, sb, cur)[bit]
    requires forall j :: 0 <= j < bit ==> !Looking(ws, n, sv, sb, cur)[j]
    ensures IsNextEmpty(Empties(ws, size), start, WORD_BITS * Wrap(cur, n) + bit)
  {
    var search := Looking(ws, n, sv, sb, cur);
    var cv := Wrap(cur, n);
    var r := WORD_BITS * cv + bit;
    assert ws[cv][bit] && (cur == sv ==> sb <= bit);
    assert r < size;
    forall p | 0 <= p < size && Between(start, p, r) && p != r ensures !Empties(ws, size)[p] {
      var pv, pb := p / WORD_BITS, p % WORD_BITS;
      ScanHitBit(ws, n, sv, sb, cur, bit, pv, pb);
    }
  }

  // the bit of one slot on the walk from the start to the hit
  lemma ScanHitBit(ws: seq<Word>, n: nat, sv: nat, sb: nat, cur: nat, bit: nat, pv: nat, pb: nat)
    requires sv < n <= |ws| && sb < WORD_BITS && sv <= cur <= sv + n && pv < n && pb < WORD_BITS
    requires Scanned(ws, n, sv, sb, cur)
    requires bit < WORD_BITS && Looking(ws, n, sv, sb, cur)[bit]
    requires forall j :: 0 <= j < bit ==> !Looking(ws, n, sv, sb, cur)[j]
    requires var r := WORD_BITS * Wrap(cur, n) + bit; var start := WORD_BITS * sv + sb;
             var p := WORD_BITS * pv + pb;
             Between(start, p, r) && p != r
    ensures !ws[pv][pb]
  {
    if pv == Wrap(cur, n) && pb < bit && (cur == sv ==> sb <= pb) {
      assert !Looking(ws, n, sv, sb, cur)[pb];
    } else if !(pv == sv && sb <= pb) {
      assert IsZero(ws[pv]);
    }
  }

  lemma ScanMiss(ws: seq<Word>, size: nat, n: nat, sv: nat, sb: nat)
    requires Covers(ws, size) && n == WordCount(size) && sv < n
    requires Scanned(ws, n, sv, sb, sv + n + 1)
    ensures forall p :: 0 <= p < size ==> !Empties(ws, size)[p]
  {
    forall p | 0 <= p < size ensures !Empties(ws, size)[p] {
      assert IsZero(ws[p / WORD_BITS]);
    }
  }

  /** Searches circularly for the first empty slot at or after `start`; `size` means there is none. */
  method NextEmpty(words: array<Word>, size: nat, start: nat) returns (r: nat)
    requires Covers(words[..], size)
    ensures start >= size ==> r == size
    ensures start < size ==> IsNextEmpty(Empties(words[..], size), start, r)
  {
    if start >= size {
      return size;
    }
    var n := WordCount(size);
    var startVec := start / WORD_BITS;
    var startBit := start % WORD_BITS;
    // the bits below the start are left for the second visit of this word
    var search := And(words[startVec], Shl(Ones(), startBit));
    var cur := startVec;
    while cur <= startVec + n
      invariant startVec <= cur <= startVec + n + 1
      invariant cur <= startVec + n ==> search == Looking(words[..], n, startVec, startBit, cur)
      invariant Scanned(words[..], n, startVec, startBit, cur)
    {
      if IsZero(search) {
        ScanStep(words[..], n, startVec, startBit, cur);
        cur := cur + 1;
        if cur <= startVec + n { WrapIsMod(cur, n); }
        search := words[cur % n];
      } else {
        var bit := CountTrailingZeros(search);
        ScanHit(words[..], size, n, start, startVec, startBit, cur, bit);
        WrapIsMod(cur, n);
        return WORD_BITS * (cur % n) + bit;
      }
    }
    ScanMiss(words[..], size, n, startVec, startBit);
    return size;
  }
}
