/** The rolling hash of the chunker, in wrapping 64-bit arithmetic (fingerprint.c:3-40, 79-120).

    `x & ((1UL << n) - 1)` is written `x % Pow2(n)`. */
module RollingHash {
  import opened ByteStrings
  import opened Congruence
  import opened Settings

  const WORD_LIMIT: nat := 0x1_0000_0000_0000_0000

  datatype Params = Params(p: nat, mBits: nat, windowBytes: nat, lowerBits: nat,
                           minChunk: nat, maxChunk: nat, magic: nat)

  // the settings of config.h
  const SETTINGS := Params(1048583, 60, 64, 13, MIN_CHUNK, MAX_CHUNK, 0)

  predicate Legal(P: Params)
  {
    && 1 <= P.windowBytes < P.minChunk <= P.maxChunk
    && P.mBits < 64 && P.lowerBits < 64
  }

  function PowP(p: nat, n: nat): nat
  {
    if n == 0 then 1 else p * PowP(p, n - 1)
  }

  /** The hash that the window stands for: its bytes as the digits of a number in base `p`. */
  function Poly(p: nat, s: Bytes): nat
  {
    if s == [] then 0 else Poly(p, s[..|s| - 1]) * p + s[|s| - 1]
  }

  /** `rabin_table[b]`: what the byte leaving the window had contributed. */
  function Outgoing(P: Params, b: Byte): nat
    requires P.windowBytes >= 1
  {
    (b * (PowP(P.p, P.windowBytes - 1) % WORD_LIMIT)) % WORD_LIMIT
  }

  /** Where a scan stands: the window is a ring whose oldest byte should be in `slot`. */
  datatype Scan = Scan(start: nat, size: nat, hash: nat, slot: nat, window: Bytes)

  predicate ScanOK(P: Params, st: Scan)
  {
    |st.window| == P.windowBytes && st.slot < P.windowBytes && P.windowBytes >= 1
  }

  /** `cur_rabin - rabin_table[..]` in uint64_t. */
  function Difference(hash: nat, out: nat): nat
  {
    (hash - out) % WORD_LIMIT
  }

  /** One more byte: the one in `slot` leaves the window. */
  function Roll(P: Params, st: Scan, b: Byte): (r: Scan)
    requires ScanOK(P, st)
    ensures ScanOK(P, r)
  {
    var diff := Difference(st.hash, Outgoing(P, st.window[st.slot]));
    st.(hash := ((diff * P.p + b) % WORD_LIMIT) % Pow2(P.mBits),
        window := st.window[st.slot := b],
        slot := (st.slot + 1) % P.windowBytes,
        size := st.size + 1)
  }

  /** `init_rabin`: the sum over the window from its end, each term masked, accumulated with wrap-around. */
  function InitSum(P: Params, s: Bytes, pw: nat): nat
  {
    if s == [] then 0
    else ((s[|s| - 1] * pw) % WORD_LIMIT % Pow2(P.mBits) + InitSum(P, s[..|s| - 1], pw * P.p % WORD_LIMIT)) % WORD_LIMIT
  }

  /** The ring read from its slot. */
  function Ring(st: Scan): Bytes
    requires st.slot <= |st.window|
  {
    st.window[st.slot..] + st.window[..st.slot]
  }

  /** The rolled value stands for the bytes of the ring. */
  predicate Agrees(P: Params, st: Scan)
    requires ScanOK(P, st)
  {
    Cong(st.hash, Poly(P.p, Ring(st)), Pow2(P.mBits))
  }

  // ---- the polynomial ----

  lemma {:induction false} PolyFront(p: nat, a: Byte, s: Bytes)
    ensures Poly(p, [a] + s) == a * PowP(p, |s|) + Poly(p, s)
    decreases |s|
  {
    if s == [] {
      assert [a] + s == [a] && [a][..0] == [];
    } else {
      var n := |s| - 1;
      assert ([a] + s)[..n + 1] == [a] + s[..n];
      PolyFront(p, a, s[..n]);
      FrontAlgebra(a, PowP(p, n), Poly(p, s[..n]), p);
    }
  }

  lemma FrontAlgebra(a: int, pw: int, y: int, p: int)
    ensures (a * pw + y) * p == a * (p * pw) + y * p
  {
    assert (a * pw) * p == a * (p * pw);
  }

  lemma PolyBack(p: nat, s: Bytes, b: Byte)
    ensures Poly(p, s + [b]) == Poly(p, s) * p + b
  {
    assert (s + [b])[..|s|] == s;
  }

  lemma NextSlot(slot: nat, n: nat)
    requires slot < n
    ensures (slot + 1) % n == if slot + 1 == n then 0 else slot + 1
  {
  }

  lemma RingRolls(P: Params, st: Scan, b: Byte)
    requires ScanOK(P, st)
    ensures Ring(Roll(P, st, b)) == Ring(st)[1..] + [b]
    ensures Ring(st)[0] == st.window[st.slot]
  {
    NextSlot(st.slot, P.windowBytes);
    var w, k := st.window, st.slot;
    RotateRolls(w, k, b);
  }

  lemma RotateRolls(w: Bytes, k: nat, b: Byte)
    requires k < |w|
    ensures var w' := w[k := b]; var k' := if k + 1 == |w| then 0 else k + 1;
            w'[k'..] + w'[..k'] == (w[k..] + w[..k])[1..] + [b]
  {
    if k + 1 == |w| {
      assert w[k..] == [w[k]];
    }
  }

  // ---- one step of the hash ----

  lemma MaskDividesWord(P: Params) returns (d: nat)
    requires P.mBits < 64
    ensures WORD_LIMIT == d * Pow2(P.mBits)
  {
    Pow2Split(P.mBits, 64 - P.mBits);
    Pow2Of64();
    d := Pow2(64 - P.mBits);
  }

  lemma OutgoingCong(P: Params, a: Byte)
    requires P.mBits < 64 && P.windowBytes >= 1
    ensures Cong(Outgoing(P, a), a * PowP(P.p, P.windowBytes - 1), Pow2(P.mBits))
  {
    var m, pw := Pow2(P.mBits), PowP(P.p, P.windowBytes - 1);
    var d := MaskDividesWord(P);
    CongWrap(pw, WORD_LIMIT, m, d);
    CongScale(pw % WORD_LIMIT, pw, a, m);
    CongWrap(a * (pw % WORD_LIMIT), WORD_LIMIT, m, d);
    CongTrans(Outgoing(P, a), a * (pw % WORD_LIMIT), a * pw, m);
  }

  /** Without the wraps and the masks. */
  lemma RollCong(P: Params, st: Scan, b: Byte)
    requires ScanOK(P, st) && P.mBits < 64
    ensures var a := st.window[st.slot];
            Cong(Roll(P, st, b).hash, P.p * (st.hash - a * PowP(P.p, P.windowBytes - 1)) + b, Pow2(P.mBits))
  {
    var m, a := Pow2(P.mBits), st.window[st.slot];
    var d := MaskDividesWord(P);
    var exact := st.hash - a * PowP(P.p, P.windowBytes - 1);
    var out := Outgoing(P, a);
    var diff := Difference(st.hash, out);
    OutgoingCong(P, a);
    CongFrom(st.hash, st.hash, 0, m);
    CongAdd(st.hash, st.hash, out, a * PowP(P.p, P.windowBytes - 1), m);
    CongWrap(st.hash - out, WORD_LIMIT, m, d);
    CongTrans(diff, st.hash - out, exact, m);
    CongScale(diff, exact, P.p, m);
    CongFrom(b, b, 0, m);
    CongAdd(P.p * diff, P.p * exact, b, b, m);
    var full := diff * P.p + b;
    assert full == P.p * diff + b;
    CongWrap(full, WORD_LIMIT, m, d);
    CongWrap(full % WORD_LIMIT, m, m, 1);
    CongTrans(full % WORD_LIMIT % m, full % WORD_LIMIT, full, m);
    CongTrans(full % WORD_LIMIT % m, full, P.p * exact + b, m);
  }

  lemma DefectAlgebra(p: int, h: int, out: int, y: int, b: int)
    ensures p * (h - out) + b - (y * p + b) == p * (h - (out + y))
  {
  }

  // the defect, as a number
  function Defect(P: Params, st: Scan): int
    requires ScanOK(P, st)
  {
    st.hash - Poly(P.p, Ring(st))
  }

  /** The polynomial of the ring, step by step. */
  lemma PolyRolls(P: Params, st: Scan, b: Byte)
    requires ScanOK(P, st)
    ensures var out := st.window[st.slot] * PowP(P.p, P.windowBytes - 1);
            P.p * (st.hash - out) + b - Poly(P.p, Ring(Roll(P, st, b))) == P.p * Defect(P, st)
  {
    var ring := Ring(st);
    var a, rest := ring[0], ring[1..];
    RingRolls(P, st, b);
    assert ring == [a] + rest;
    PolyFront(P.p, a, rest);
    PolyBack(P.p, rest, b);
    DefectAlgebra(P.p, st.hash, a * PowP(P.p, P.windowBytes - 1), Poly(P.p, rest), b);
  }

  /** The error of the rolled value against the ring is multiplied by `p` at each step. */
  lemma DefectRolls(P: Params, st: Scan, b: Byte)
    requires ScanOK(P, st) && P.mBits < 64
    ensures Cong(Defect(P, Roll(P, st, b)), P.p * Defect(P, st), Pow2(P.mBits))
  {
    RollCong(P, st, b);
    PolyRolls(P, st, b);
    var poly' := Poly(P.p, Ring(Roll(P, st, b)));
    CongSelf(poly', Pow2(P.mBits));
    hide Roll, Ring, Poly, PowP, Cong;
    CongAdd(Roll(P, st, b).hash, P.p * (st.hash - st.window[st.slot] * PowP(P.p, P.windowBytes - 1)) + b,
            poly', poly', Pow2(P.mBits));
  }

  /** With an odd multiplier a step neither creates nor repairs a disagreement. */
  lemma AgreementRolls(P: Params, st: Scan, b: Byte)
    requires ScanOK(P, st) && P.mBits < 64 && P.p % 2 == 1
    ensures Agrees(P, Roll(P, st, b)) <==> Agrees(P, st)
  {
    var m := Pow2(P.mBits);
    var before, after := Defect(P, st), Defect(P, Roll(P, st, b));
    DefectRolls(P, st, b);
    if Agrees(P, st) {
      CongScale(before, 0, P.p, m);
      CongTrans(after, P.p * before, 0, m);
    }
    if Agrees(P, Roll(P, st, b)) {
      CongSym(after, P.p * before, m);
      CongTrans(P.p * before, after, 0, m);
      CancelOdd(P.p, before, P.mBits);
    }
  }

  // ---- whole scans ----

  function RollAll(P: Params, st: Scan, bs: Bytes): (r: Scan)
    requires ScanOK(P, st)
    ensures ScanOK(P, r)
    decreases |bs|
  {
    if bs == [] then st else RollAll(P, Roll(P, st, bs[0]), bs[1..])
  }

  /** Over a whole scan, the ring holds the last bytes that went in, and the rolled value agrees with it
      exactly if it did at the start of the scan. */
  lemma {:induction false} ScanAgreement(P: Params, st: Scan, bs: Bytes)
    requires ScanOK(P, st) && P.mBits < 64 && P.p % 2 == 1
    ensures Agrees(P, RollAll(P, st, bs)) <==> Agrees(P, st)
    ensures Ring(RollAll(P, st, bs)) == (Ring(st) + bs)[|bs|..]
    decreases |bs|
  {
    if bs == [] {
      assert Ring(st) + bs == Ring(st);
    } else {
      AgreementRolls(P, st, bs[0]);
      RingRolls(P, st, bs[0]);
      ScanAgreement(P, Roll(P, st, bs[0]), bs[1..]);
      assert Ring(st)[1..] + [bs[0]] + bs[1..] == (Ring(st) + bs)[1..];
    }
  }

  lemma {:induction false} InitSumCong(P: Params, s: Bytes, pw: nat, exact: nat)
    requires P.mBits < 64 && Cong(pw, exact, Pow2(P.mBits))
    ensures Cong(InitSum(P, s, pw), exact * Poly(P.p, s), Pow2(P.mBits))
  {
    var m := Pow2(P.mBits);
    if s == [] {
      assert exact * Poly(P.p, s) == 0;
      CongSelf(0, m);
    } else {
      var b, front := s[|s| - 1], s[..|s| - 1];
      var pw' := pw * P.p % WORD_LIMIT;
      NextPower(P, pw, exact);
      InitSumCong(P, front, pw', P.p * exact);
      InitTerm(P, b, pw, exact, InitSum(P, front, pw'), (P.p * exact) * Poly(P.p, front));
      TermAlgebra(b, exact, P.p, Poly(P.p, front));
    }
  }

  lemma TermAlgebra(b: int, exact: int, p: int, q: int)
    ensures b * exact + (p * exact) * q == exact * (q * p + b)
  {
    assert (p * exact) * q == exact * (q * p);
    assert exact * (q * p + b) == exact * (q * p) + exact * b;
  }

  lemma NextPower(P: Params, pw: nat, exact: nat)
    requires P.mBits < 64 && Cong(pw, exact, Pow2(P.mBits))
    ensures Cong(pw * P.p % WORD_LIMIT, P.p * exact, Pow2(P.mBits))
  {
    var m := Pow2(P.mBits);
    var d := MaskDividesWord(P);
    CongScale(pw, exact, P.p, m);
    assert P.p * pw == pw * P.p;
    CongWrap(pw * P.p, WORD_LIMIT, m, d);
    CongTrans(pw * P.p % WORD_LIMIT, pw * P.p, P.p * exact, m);
  }

  // one masked term, added with wrap-around
  lemma InitTerm(P: Params, b: Byte, pw: nat, exact: nat, rest: nat, restExact: nat)
    requires P.mBits < 64 && Cong(pw, exact, Pow2(P.mBits)) && Cong(rest, restExact, Pow2(P.mBits))
    ensures Cong(((b * pw) % WORD_LIMIT % Pow2(P.mBits) + rest) % WORD_LIMIT, b * exact + restExact, Pow2(P.mBits))
  {
    var m := Pow2(P.mBits);
    var d := MaskDividesWord(P);
    var bpw := b * pw;
    var term := bpw % WORD_LIMIT % m;
    CongWrap(bpw, WORD_LIMIT, m, d);
    CongWrap(bpw % WORD_LIMIT, m, m, 1);
    CongTrans(term, bpw % WORD_LIMIT, bpw, m);
    CongScale(pw, exact, b, m);
    CongTrans(term, bpw, b * exact, m);
    CongAdd(term, b * exact, rest, restExact, m);
    CongWrap(term + rest, WORD_LIMIT, m, d);
    CongTrans((term + rest) % WORD_LIMIT, term + rest, b * exact + restExact, m);
  }

  /** At the start of a scan the value stands for the window read from its first byte; so it agrees with
      the ring read from `slot` just when both readings have the same polynomial.  With `slot` 0, as
      in the first chunk, it always agrees. */
  lemma StartAgreement(P: Params, st: Scan)
    requires ScanOK(P, st) && P.mBits < 64
    requires st.hash == InitSum(P, st.window, 1) || st.hash == InitSum(P, st.window, 1) % Pow2(P.mBits)
    ensures Agrees(P, st) <==> Cong(Poly(P.p, st.window), Poly(P.p, Ring(st)), Pow2(P.mBits))
    ensures st.slot == 0 ==> Agrees(P, st)
  {
    var m, w, r := Pow2(P.mBits), Poly(P.p, st.window), Poly(P.p, Ring(st));
    var sum := InitSum(P, st.window, 1);
    CongFrom(1, 1, 0, m);
    InitSumCong(P, st.window, 1, 1);
    CongWrap(sum, m, m, 1);
    CongTrans(sum % m, sum, w, m);
    assert Cong(st.hash, w, m);
    CongSym(st.hash, w, m);
    if Agrees(P, st) { CongTrans(w, st.hash, r, m); }
    if Cong(w, r, m) { CongTrans(st.hash, w, r, m); }
    if st.slot == 0 {
      assert Ring(st) == st.window;
      CongFrom(w, w, 0, m);
    }
  }

  /** So, in a scan of any chunk, the rolled value is right at every point or at none. */
  lemma RollingExact(P: Params, st: Scan, bs: Bytes)
    requires ScanOK(P, st) && P.mBits < 64 && P.p % 2 == 1
    requires st.hash == InitSum(P, st.window, 1) || st.hash == InitSum(P, st.window, 1) % Pow2(P.mBits)
    ensures Agrees(P, RollAll(P, st, bs)) <==> Cong(Poly(P.p, st.window), Poly(P.p, Ring(st)), Pow2(P.mBits))
    ensures st.slot == 0 ==> Agrees(P, RollAll(P, st, bs))
  {
    StartAgreement(P, st);
    ScanAgreement(P, st, bs);
  }

  lemma {:induction false} PolyZeros(p: nat, n: nat)
    ensures Poly(p, seq(n, _ => 0)) == 0
  {
    if n > 0 {
      PolyZeros(p, n - 1);
      assert seq(n, _ => 0)[..n - 1] == seq(n - 1, _ => 0);
    }
  }

  /** A later chunk can start with a slot that makes it wrong throughout: with the source's settings, a
      window of 63 zero bytes and a one, read from slot 1.  (Misread gives a message whose second chunk
      starts like that.) */
  lemma RollingWrong(start: nat, bs: Bytes)
    ensures var window := seq(63, _ => 0) + [1];
            var st := Scan(start, SETTINGS.minChunk, InitSum(SETTINGS, window, 1), 1, window);
            ScanOK(SETTINGS, st) && !Agrees(SETTINGS, RollAll(SETTINGS, st, bs))
  {
    var zeros: Bytes := seq(63, _ => 0);
    var window := zeros + [1];
    var st := Scan(start, SETTINGS.minChunk, InitSum(SETTINGS, window, 1), 1, window);
    var p := SETTINGS.p;
    PolyZeros(p, 63);
    PolyZeros(p, 62);
    PolyBack(p, zeros, 1);
    var shorter: Bytes := seq(62, _ => 0);
    PolyBack(p, shorter, 1);
    PolyBack(p, shorter + [1], 0);
    assert Ring(st) == shorter + [1] + [0];
    RollingExact(SETTINGS, st, bs);
    NotCongruent();
  }

  lemma NotCongruent()
    ensures !Cong(1, 1048583, Pow2(60))
  {
    Pow2Of64();
    Pow2Split(60, 4);
    assert Pow2(4) == 16;
  }

  // ---- the loops of the source ----

  /** `gen_rabin_table` */
  method GenTable(P: Params) returns (table: array<nat>)
    requires P.windowBytes >= 1
    ensures fresh(table) && table.Length == 256
    ensures forall b :: 0 <= b < 256 ==> table[b] == Outgoing(P, b)
  {
    table := new nat[256](_ => 0);
    var pw := 1;
    for i := 1 to P.windowBytes
      invariant pw == PowP(P.p, i - 1) % WORD_LIMIT
    {
      WrapProduct(PowP(P.p, i - 1), P.p, WORD_LIMIT);
      pw := (pw * P.p) % WORD_LIMIT;
    }
    for b := 0 to 256
      invariant forall c :: 0 <= c < b ==> table[c] == Outgoing(P, c)
    {
      table[b] := (b * pw) % WORD_LIMIT;
    }
  }

  /** `init_rabin`: fills the window and accumulates the hash from its end. */
  method InitRabin(P: Params, data: Bytes, window: array<Byte>) returns (hash: nat)
    requires |data| == P.windowBytes == window.Length
    modifies window
    ensures window[..] == data
    ensures hash == InitSum(P, data, 1)
  {
    hash := 0;
    var pw: nat := 1;
    var i := P.windowBytes;
    InitSumBound(P, data, 1);
    while i > 0
      invariant 0 <= i <= P.windowBytes
      invariant (hash + InitSum(P, data[..i], pw)) % WORD_LIMIT == InitSum(P, data, 1)
      invariant hash < WORD_LIMIT
      invariant window[i..] == data[i..]
    {
      i := i - 1;
      assert data[..i + 1][..i] == data[..i];
      var term := (data[i] * pw) % WORD_LIMIT % Pow2(P.mBits);
      WrapSum(hash, term, InitSum(P, data[..i], pw * P.p % WORD_LIMIT), WORD_LIMIT);
      hash := (hash + term) % WORD_LIMIT;
      pw := pw * P.p % WORD_LIMIT;
      window[i] := data[i];
      assert window[i..] == [data[i]] + window[i + 1..];
    }
    assert data[..0] == [];
  }

  lemma InitSumBound(P: Params, s: Bytes, pw: nat)
    ensures InitSum(P, s, pw) < WORD_LIMIT
    ensures s[..|s|] == s
  {
  }
}
