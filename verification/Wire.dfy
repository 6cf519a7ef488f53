/** What the two sides put on the wire (net_dedup.h:89-100, fingerprint.h:32-35). */
module Wire {
  import opened ByteStrings
  import opened Probing

  const HEADER_BYTES := 16        // sizeof(General_Header): a char, padding, a uint64_t
  const COUNT_BYTES := 8          // sizeof(Fingerprint_Header), sizeof(Missing_Fingerprint_Header)
  const INDEX_BYTES := 8
  const FINGERPRINT_BYTES := 40   // sizeof(Fingerprint)

  const U64_LIMIT: nat := 0x1_0000_0000_0000_0000

  datatype Fingerprint = Fingerprint(size: nat, key: Key)

  // ---- general header ----

  function EncodeHeader(isFingerprint: bool, size: nat): (b: Bytes)
    ensures |b| == HEADER_BYTES
  {
    [if isFingerprint then 1 else 0] + [0, 0, 0, 0, 0, 0, 0] + Encode(size, 8)
  }

  function HeaderIsFingerprint(b: Bytes): bool
    requires |b| == HEADER_BYTES
  {
    b[0] != 0
  }

  function HeaderSize(b: Bytes): nat
    requires |b| == HEADER_BYTES
  {
    Decode(b[8..])
  }

  lemma Pow256Of8()
    ensures Pow256(8) == U64_LIMIT
  {
    assert Pow256(4) == 0x1_0000_0000;
    assert Pow256(8) == 256 * (256 * (256 * (256 * Pow256(4))));
  }

  lemma EightBytes(v: nat)
    requires v < U64_LIMIT
    ensures Decode(Encode(v, 8)) == v
  {
    Pow256Of8();
    EncodeRoundTrip(v, 8);
  }

  lemma HeaderRoundTrip(isFingerprint: bool, size: nat)
    requires size < U64_LIMIT
    ensures var b := EncodeHeader(isFingerprint, size);
            HeaderIsFingerprint(b) == isFingerprint && HeaderSize(b) == size
  {
    EightBytes(size);
    assert EncodeHeader(isFingerprint, size)[8..] == Encode(size, 8);
  }

  // ---- fingerprints ----

  lemma {:induction false} DecodeBound(s: Bytes)
    ensures Decode(s) < Pow256(|s|)
  {
    if s != [] { DecodeBound(s[1..]); }
  }

  lemma {:induction false} Pow256Split(a: nat, b: nat)
    ensures Pow256(a + b) == Pow256(a) * Pow256(b)
  {
    if a > 0 {
      Pow256Split(a - 1, b);
      assert 256 * (Pow256(a - 1) * Pow256(b)) == (256 * Pow256(a - 1)) * Pow256(b);
    }
  }

  lemma Pow256Of32()
    ensures Pow256(32) == KEY_LIMIT
  {
    Pow256Of8();
    Pow256Split(8, 8);
    Pow256Split(16, 16);
  }

  function DecodeKey(b: Bytes): Key
    requires |b| == 32
  {
    DecodeBound(b);
    Pow256Of32();
    Decode(b)
  }

  function EncodeFingerprint(f: Fingerprint): (b: Bytes)
    ensures |b| == FINGERPRINT_BYTES
  {
    Encode(f.size, 8) + Encode(f.key, 32)
  }

  function DecodeFingerprint(b: Bytes): Fingerprint
    requires |b| == FINGERPRINT_BYTES
  {
    Fingerprint(Decode(b[..8]), DecodeKey(b[8..]))
  }

  lemma FingerprintRoundTrip(f: Fingerprint)
    requires f.size < U64_LIMIT
    ensures DecodeFingerprint(EncodeFingerprint(f)) == f
  {
    EightBytes(f.size);
    Pow256Of32();
    EncodeRoundTrip(f.key, 32);
    assert EncodeFingerprint(f)[..8] == Encode(f.size, 8);
    assert EncodeFingerprint(f)[8..] == Encode(f.key, 32);
  }

  function EncodeFingerprints(fs: seq<Fingerprint>): (b: Bytes)
    ensures |b| == FINGERPRINT_BYTES * |fs|
  {
    if fs == [] then [] else EncodeFingerprint(fs[0]) + EncodeFingerprints(fs[1..])
  }

  function DecodeFingerprints(b: Bytes): seq<Fingerprint>
  {
    if |b| < FINGERPRINT_BYTES then []
    else [DecodeFingerprint(b[..FINGERPRINT_BYTES])] + DecodeFingerprints(b[FINGERPRINT_BYTES..])
  }

  lemma {:induction false} FingerprintsRoundTrip(fs: seq<Fingerprint>)
    requires forall i :: 0 <= i < |fs| ==> fs[i].size < U64_LIMIT
    ensures DecodeFingerprints(EncodeFingerprints(fs)) == fs
  {
    if fs != [] {
      FingerprintRoundTrip(fs[0]);
      FingerprintsRoundTrip(fs[1..]);
      var b := EncodeFingerprints(fs);
      assert b[..FINGERPRINT_BYTES] == EncodeFingerprint(fs[0]);
      assert b[FINGERPRINT_BYTES..] == EncodeFingerprints(fs[1..]);
    }
  }

  // ---- indices ----

  function EncodeIndices(s: seq<nat>): (b: Bytes)
    ensures |b| == INDEX_BYTES * |s|
  {
    if s == [] then [] else Encode(s[0], 8) + EncodeIndices(s[1..])
  }

  function DecodeIndices(b: Bytes): seq<nat>
  {
    if |b| < INDEX_BYTES then [] else [Decode(b[..INDEX_BYTES])] + DecodeIndices(b[INDEX_BYTES..])
  }

  lemma {:induction false} IndicesRoundTrip(s: seq<nat>)
    requires forall i :: 0 <= i < |s| ==> s[i] < U64_LIMIT
    ensures DecodeIndices(EncodeIndices(s)) == s
  {
    if s != [] {
      EightBytes(s[0]);
      IndicesRoundTrip(s[1..]);
      var b := EncodeIndices(s);
      assert b[..INDEX_BYTES] == Encode(s[0], 8);
      assert b[INDEX_BYTES..] == EncodeIndices(s[1..]);
    }
  }

  // ---- one element of an array that was received as bytes ----

  lemma {:induction false} IndexCount(b: Bytes, n: nat)
    requires |b| == INDEX_BYTES * n
    ensures |DecodeIndices(b)| == n
  {
    if n > 0 { IndexCount(b[INDEX_BYTES..], n - 1); }
  }

  lemma {:induction false} FingerprintCount(b: Bytes, n: nat)
    requires |b| == FINGERPRINT_BYTES * n
    ensures |DecodeFingerprints(b)| == n
  {
    hide DecodeFingerprint;
    if n > 0 { FingerprintCount(b[FINGERPRINT_BYTES..], n - 1); }
  }

  lemma {:induction false} IndexAt(b: Bytes, n: nat, i: nat)
    requires |b| == INDEX_BYTES * n && i < n
    ensures |DecodeIndices(b)| == n && DecodeIndices(b)[i] == Decode(b[INDEX_BYTES * i..INDEX_BYTES * i + INDEX_BYTES])
    decreases n
  {
    var rest := b[INDEX_BYTES..];
    if i > 0 {
      IndexAt(rest, n - 1, i - 1);
      assert rest[INDEX_BYTES * (i - 1)..INDEX_BYTES * i] == b[INDEX_BYTES * i..INDEX_BYTES * i + INDEX_BYTES];
    } else if n > 1 {
      IndexAt(rest, n - 1, 0);
    }
  }

  lemma {:induction false} FingerprintAt(b: Bytes, n: nat, i: nat)
    requires |b| == FINGERPRINT_BYTES * n && i < n
    ensures |DecodeFingerprints(b)| == n
    ensures DecodeFingerprints(b)[i]
            == DecodeFingerprint(b[FINGERPRINT_BYTES * i..FINGERPRINT_BYTES * i + FINGERPRINT_BYTES])
    decreases n
  {
    hide DecodeFingerprint;
    var rest := b[FINGERPRINT_BYTES..];
    if i > 0 {
      FingerprintAt(rest, n - 1, i - 1);
      assert rest[FINGERPRINT_BYTES * (i - 1)..FINGERPRINT_BYTES * i]
          == b[FINGERPRINT_BYTES * i..FINGERPRINT_BYTES * i + FINGERPRINT_BYTES];
    } else if n > 1 {
      FingerprintAt(rest, n - 1, 0);
    }
  }

  // ---- the layout, byte by byte ----

  /** The uint64_t at an address: eight digits to the base 256, the lowest first. */
  function Word(b: Bytes, at: nat): nat
    requires at + 8 <= |b|
  {
    var d0: nat, d1: nat, d2: nat, d3: nat := b[at], b[at + 1], b[at + 2], b[at + 3];
    var d4: nat, d5: nat, d6: nat, d7: nat := b[at + 4], b[at + 5], b[at + 6], b[at + 7];
    d0 + 0x100 * d1 + 0x1_0000 * d2 + 0x100_0000 * d3 + 0x1_0000_0000 * d4
    + 0x100_0000_0000 * d5 + 0x1_0000_0000_0000 * d6 + 0x100_0000_0000_0000 * d7
  }

  /** The 32 bytes of a digest at an address, as the number they stand for. */
  function Digest(b: Bytes, at: nat): nat
    requires at + 32 <= |b|
  {
    Word(b, at) + 0x1_0000_0000_0000_0000 * Word(b, at + 8)
    + 0x1_0000_0000_0000_0000_0000_0000_0000_0000 * Word(b, at + 16)
    + 0x1_0000_0000_0000_0000_0000_0000_0000_0000_0000_0000_0000_0000 * Word(b, at + 24)
  }

  lemma DecodeFour(b: Bytes)
    requires |b| >= 4
    ensures var d0: nat, d1: nat, d2: nat, d3: nat := b[0], b[1], b[2], b[3];
            Decode(b) == d0 + 0x100 * d1 + 0x1_0000 * d2 + 0x100_0000 * d3 + 0x1_0000_0000 * Decode(b[4..])
  {
    assert b[1..][1..] == b[2..] && b[2..][1..] == b[3..] && b[3..][1..] == b[4..];
    assert Decode(b[3..]) == b[3] + 256 * Decode(b[4..]);
    assert Decode(b[2..]) == b[2] + 256 * Decode(b[3..]);
    assert Decode(b[1..]) == b[1] + 256 * Decode(b[2..]);
  }

  lemma DecodeWord(b: Bytes)
    requires |b| >= 8
    ensures Decode(b) == Word(b, 0) + 0x1_0000_0000_0000_0000 * Decode(b[8..])
  {
    DecodeFour(b);
    DecodeFour(b[4..]);
    assert b[4..][4..] == b[8..];
  }

  lemma DecodeDigest(b: Bytes)
    requires |b| == 32
    ensures Decode(b) == Digest(b, 0)
  {
    DecodeWord(b);
    DecodeWord(b[8..]);
    DecodeWord(b[16..]);
    DecodeWord(b[24..]);
    assert b[8..][8..] == b[16..] && b[16..][8..] == b[24..] && b[24..][8..] == [];
  }

  lemma EncodeWord(v: nat)
    requires v < U64_LIMIT
    ensures Word(Encode(v, 8), 0) == v
  {
    EightBytes(v);
    DecodeWord(Encode(v, 8));
  }

  /** A part of a longer string that reads the same. */
  lemma WordInside(b: Bytes, lo: nat, part: Bytes, at: nat)
    requires lo + |part| <= |b| && b[lo..lo + |part|] == part && at + 8 <= |part|
    ensures Word(b, lo + at) == Word(part, at)
  {
    forall i | 0 <= i < |part| ensures b[lo + i] == part[i] {
      assert b[lo..lo + |part|][i] == b[lo + i];
    }
  }

  lemma DigestInside(b: Bytes, lo: nat, part: Bytes, at: nat)
    requires lo + |part| <= |b| && b[lo..lo + |part|] == part && at + 32 <= |part|
    ensures Digest(b, lo + at) == Digest(part, at)
  {
    hide Word;
    WordInside(b, lo, part, at);
    WordInside(b, lo, part, at + 8);
    WordInside(b, lo, part, at + 16);
    WordInside(b, lo, part, at + 24);
  }

  /** A header is put down as the flag, 1 or 0, and the size behind seven bytes of padding. */
  lemma HeaderLayout(isFingerprint: bool, size: nat)
    requires size < U64_LIMIT
    ensures EncodeHeader(isFingerprint, size)[0] == if isFingerprint then 1 else 0
    ensures Word(EncodeHeader(isFingerprint, size), 8) == size
  {
    hide Encode, Word;
    EncodeWord(size);
    WordInside(EncodeHeader(isFingerprint, size), 8, Encode(size, 8), 0);
  }

  lemma HeaderBehind(before: Bytes, isFingerprint: bool, size: nat)
    ensures var b := before + EncodeHeader(isFingerprint, size);
            && b[|before|] == (if isFingerprint then 1 else 0)
            && (size < U64_LIMIT ==> Word(b, |before| + 8) == size)
  {
    hide Word;
    var b, h := before + EncodeHeader(isFingerprint, size), EncodeHeader(isFingerprint, size);
    if size < U64_LIMIT {
      HeaderLayout(isFingerprint, size);
      assert b[|before|..|before| + |h|] == h;
      WordInside(b, |before|, h, 8);
    }
  }

  /** And read so, whoever wrote it. */
  lemma HeaderMeans(b: Bytes)
    requires |b| >= HEADER_BYTES
    ensures HeaderIsFingerprint(b[..HEADER_BYTES]) <==> b[0] != 0
    ensures HeaderSize(b[..HEADER_BYTES]) == Word(b, 8)
  {
    hide Word;
    var word := b[..HEADER_BYTES][8..];
    DecodeWord(word);
    assert b[8..8 + |word|] == word;
    WordInside(b, 8, word, 0);
    assert word[8..] == [];
  }

  /** A count is eight bytes, the lowest first, both ways. */
  lemma CountMeans(b: Bytes)
    requires |b| == COUNT_BYTES
    ensures Decode(b) == Word(b, 0)
  {
    DecodeWord(b);
    assert b[8..] == [];
  }

  /** Record number `i` has the size in its first eight bytes and the digest in the other 32. */
  lemma {:induction false} FingerprintsLayout(fs: seq<Fingerprint>, i: nat)
    requires i < |fs| && fs[i].size < U64_LIMIT
    ensures FINGERPRINT_BYTES * i + FINGERPRINT_BYTES <= |EncodeFingerprints(fs)|
    ensures Word(EncodeFingerprints(fs), FINGERPRINT_BYTES * i) == fs[i].size
    ensures Digest(EncodeFingerprints(fs), FINGERPRINT_BYTES * i + 8) == fs[i].key
  {
    hide Word, Digest, Encode;
    var b, rest := EncodeFingerprints(fs), EncodeFingerprints(fs[1..]);
    if i == 0 {
      var f := EncodeFingerprint(fs[0]);
      assert b[0..FINGERPRINT_BYTES] == f;
      RecordLayout(fs[0]);
      WordInside(b, 0, f, 0);
      DigestInside(b, 0, f, 8);
    } else {
      FingerprintsLayout(fs[1..], i - 1);
      assert b[FINGERPRINT_BYTES..FINGERPRINT_BYTES + |rest|] == rest;
      WordInside(b, FINGERPRINT_BYTES, rest, FINGERPRINT_BYTES * (i - 1));
      DigestInside(b, FINGERPRINT_BYTES, rest, FINGERPRINT_BYTES * (i - 1) + 8);
    }
  }

  lemma RecordLayout(f: Fingerprint)
    requires f.size < U64_LIMIT
    ensures Word(EncodeFingerprint(f), 0) == f.size && Digest(EncodeFingerprint(f), 8) == f.key
  {
    hide Word, Digest, Encode;
    var b := EncodeFingerprint(f);
    EncodeWord(f.size);
    WordInside(b, 0, Encode(f.size, 8), 0);
    Pow256Of32();
    EncodeRoundTrip(f.key, 32);
    DecodeDigest(Encode(f.key, 32));
    DigestInside(b, 8, Encode(f.key, 32), 0);
  }

  /** Index number `i` is eight bytes. */
  lemma {:induction false} IndicesLayout(s: seq<nat>, i: nat)
    requires i < |s| && s[i] < U64_LIMIT
    ensures INDEX_BYTES * i + INDEX_BYTES <= |EncodeIndices(s)|
    ensures Word(EncodeIndices(s), INDEX_BYTES * i) == s[i]
  {
    hide Word, Encode;
    var b, rest := EncodeIndices(s), EncodeIndices(s[1..]);
    if i == 0 {
      EncodeWord(s[0]);
      assert b[0..8] == Encode(s[0], 8);
      WordInside(b, 0, Encode(s[0], 8), 0);
    } else {
      IndicesLayout(s[1..], i - 1);
      assert b[INDEX_BYTES..INDEX_BYTES + |rest|] == rest;
      WordInside(b, INDEX_BYTES, rest, INDEX_BYTES * (i - 1));
    }
  }
}
