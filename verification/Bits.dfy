/** Exclusive or of two bytes, digit by binary digit, and that it undoes itself. */
module Bits {

  function Power(bits: nat): (p: nat)
    ensures p >= 1
  {
    if bits == 0 then 1 else 2 * Power(bits - 1)
  }

  /** The lowest `bits` binary digits: a digit of the result is 1 where the two digits differ. */
  function XorBits(a: nat, b: nat, bits: nat): (c: nat)
    ensures c < Power(bits)
  {
    if bits == 0 then 0 else
    (if a % 2 == b % 2 then 0 else 1) + 2 * XorBits(a / 2, b / 2, bits - 1)
  }

  lemma {:induction false} XorBitsCancel(a: nat, b: nat, bits: nat)
    requires a < Power(bits)
    ensures XorBits(XorBits(a, b, bits), b, bits) == a
  {
    if bits > 0 {
      XorBitsCancel(a / 2, b / 2, bits - 1);
      var c := XorBits(a, b, bits);
      assert c / 2 == XorBits(a / 2, b / 2, bits - 1) && c % 2 == if a % 2 == b % 2 then 0 else 1;
    }
  }

  lemma EightBits()
    ensures Power(8) == 256
  {
    assert Power(2) == 4;
    assert Power(4) == 16;
    assert Power(6) == 64;
  }

  function Xor(a: int, b: int): (c: int)
    requires 0 <= a < 256 && 0 <= b < 256
    ensures 0 <= c < 256
  {
    EightBits();
    XorBits(a, b, 8)
  }

  lemma XorCancels(a: int, b: int)
    requires 0 <= a < 256 && 0 <= b < 256
    ensures Xor(Xor(a, b), b) == a
  {
    EightBits();
    XorBitsCancel(a, b, 8);
  }

  // ---------------------------------------------------------------- the operator on bit vectors

  function Number(v: bv8): (n: int)
    ensures 0 <= n < 256
  {
    v as int
  }

  function Half(v: bv8): (h: bv8) {
    v >> 1
  }

  predicate IsOdd(v: bv8) {
    v & 1 == 1
  }

  function Caret(v: bv8, w: bv8): (x: bv8) {
    v ^ w
  }

  lemma HalfNumber(v: bv8)
    ensures Number(Half(v)) == Number(v) / 2 && (IsOdd(v) <==> Number(v) % 2 == 1)
  {
  }

  lemma HalfCaret(v: bv8, w: bv8)
    ensures Half(Caret(v, w)) == Caret(Half(v), Half(w)) && (IsOdd(Caret(v, w)) <==> IsOdd(v) != IsOdd(w))
  {
    hide Number;
  }

  lemma {:induction false} CaretBits(v: bv8, w: bv8, bits: nat)
    requires Number(Caret(v, w)) < Power(bits)
    ensures Number(Caret(v, w)) == XorBits(Number(v), Number(w), bits)
    decreases bits
  {
    hide Number, Half, IsOdd, Caret;
    if bits > 0 {
      HalfNumber(v);
      HalfNumber(w);
      HalfNumber(Caret(v, w));
      HalfCaret(v, w);
      CaretBits(Half(v), Half(w), bits - 1);
    }
  }

  function Double(v: bv8, odd: bool): (d: bv8) {
    (v << 1) | (if odd then 1 else 0)
  }

  lemma DoubleNumber(v: bv8, odd: bool)
    requires Number(v) < 128
    ensures Number(Double(v, odd)) == 2 * Number(v) + if odd then 1 else 0
  {
  }

  function VectorOf(n: nat, bits: nat): (v: bv8)
    requires n < Power(bits) <= 256
    ensures Number(v) == n
  {
    if bits == 0 then Zero(); 0 else
    DoubleNumber(VectorOf(n / 2, bits - 1), n % 2 == 1);
    Double(VectorOf(n / 2, bits - 1), n % 2 == 1)
  }

  lemma Zero()
    ensures Number(0) == 0
  {
  }

  /** The bit vector of a byte. */
  function Vector(n: int): (v: bv8)
    requires 0 <= n < 256
    ensures v as int == n
  {
    EightBits();
    assert forall v: bv8 :: Number(v) == v as int;
    VectorOf(n, 8)
  }

  /** The digits above are those of the operator `^`. */
  lemma XorIsCaret(a: int, b: int)
    requires 0 <= a < 256 && 0 <= b < 256
    ensures Xor(a, b) == (Vector(a) ^ Vector(b)) as int
  {
    hide Xor, Vector;
    CaretNumber(Vector(a), Vector(b));
  }

  lemma CaretNumber(v: bv8, w: bv8)
    ensures Xor(v as int, w as int) == (v ^ w) as int
  {
    assert Number(v) == v as int && Number(w) == w as int && Number(Caret(v, w)) == (v ^ w) as int;
    hide Number, Caret, Xor;
    XorOfNumbers(v, w);
  }

  lemma XorOfNumbers(v: bv8, w: bv8)
    ensures Xor(Number(v), Number(w)) == Number(Caret(v, w))
  {
    hide Number, Caret, XorBits;
    EightBits();
    CaretBits(v, w, 8);
  }
}
