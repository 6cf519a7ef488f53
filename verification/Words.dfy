/** The 64-bit words of the emptiness bit vector, as the strings of their bits.

    Bit `i` of a word is `w[i]`, position 0 being the least significant one, and
    each operator is defined by what it does to every bit. */
module Words {

  const WORD_BITS := 64

  type Word = w: seq<bool> | |w| == WORD_BITS witness seq(WORD_BITS, _ => false)

  function Ones(): (w: Word)
    ensures forall i :: 0 <= i < WORD_BITS ==> w[i]
  {
    seq(WORD_BITS, _ => true)
  }

  function And(x: Word, y: Word): (w: Word)
    ensures forall i :: 0 <= i < WORD_BITS ==> w[i] == (x[i] && y[i])
  {
    seq(WORD_BITS, i requires 0 <= i < WORD_BITS => x[i] && y[i])
  }

  function Or(x: Word, y: Word): (w: Word)
    ensures forall i :: 0 <= i < WORD_BITS ==> w[i] == (x[i] || y[i])
  {
    seq(WORD_BITS, i requires 0 <= i < WORD_BITS => x[i] || y[i])
  }

  function Not(x: Word): (w: Word)
    ensures forall i :: 0 <= i < WORD_BITS ==> w[i] == !x[i]
  {
    seq(WORD_BITS, i requires 0 <= i < WORD_BITS => !x[i])
  }

  /** `x << b` */
  function Shl(x: Word, b: nat): (w: Word)
    ensures forall i :: 0 <= i < WORD_BITS ==> w[i] == (b <= i && x[i - b])
  {
    seq(WORD_BITS, i requires 0 <= i < WORD_BITS => b <= i && x[i - b])
  }

  /** `1UL << b` */
  function OneBit(b: nat): (w: Word)
    ensures forall i :: 0 <= i < WORD_BITS ==> w[i] == (i == b)
  {
    seq(WORD_BITS, i => i == b)
  }

  /** `(1UL << n) - 1` */
  function LowOnes(n: nat): (w: Word)
    ensures forall i :: 0 <= i < WORD_BITS ==> w[i] == (i < n)
  {
    seq(WORD_BITS, i => i < n)
  }

  predicate IsZero(w: Word)
  {
    forall i :: 0 <= i < WORD_BITS ==> !w[i]
  }

  /** `__builtin_ctzll`: the position of the least significant one. */
  method CountTrailingZeros(w: Word) returns (r: nat)
    requires !IsZero(w)
    ensures r < WORD_BITS && w[r]
    ensures forall j :: 0 <= j < r ==> !w[j]
  {
    r := 0;
    while !w[r]
      invariant r < WORD_BITS
      invariant forall j :: 0 <= j < r ==> !w[j]
      decreases WORD_BITS - r
    {
      if r == WORD_BITS - 1 {
        assert IsZero(w);
        assert false;
      }
      r := r + 1;
    }
  }
}
