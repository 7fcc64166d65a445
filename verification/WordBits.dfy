/** Bits of 64-bit words under the shifts and masks of the sliding bitmap. Shift amounts are
    8-bit vectors, for which conversions to and from numbers are exact. Each word operation
    has a name so that the proofs about several of them can hide what they do to the bits. */
module WordBits {

  type Word = bv64

  function RightBy(w: Word, b: bv8): Word
    requires b <= 64
  {
    w >> b
  }

  function LeftBy(w: Word, b: bv8): Word
    requires b <= 64
  {
    w << b
  }

  function Or(v: Word, w: Word): Word
  {
    v | w
  }

  /** The word with only bit k set. */
  function Mask(k: bv8): Word
    requires k < 64
  {
    1 << k
  }

  predicate TestMask(w: Word, mask: Word)
  {
    w & mask != 0
  }

  /** Bit k, counted from the low end. */
  predicate Bit8(w: Word, k: bv8)
    requires k < 64
  {
    (w >> k) & 1 == 1
  }

  function Bit(w: Word, k: nat): bool
    requires k < 64
  {
    There(k);
    Less(k as bv8, 64);
    Bit8(w, k as bv8)
  }

  /** x shifted right by b, with the lower b bits of y moved in at the top. */
  function ShiftIn(x: Word, y: Word, b: bv8): Word
    requires 0 < b < 64
  {
    Or(RightBy(x, b), LeftBy(y, 64 - b))
  }

  // ---------------------------------------------------------------------------
  // Small bit-vectors and numbers

  lemma There(k: nat)
    requires k <= 64
    ensures (k as bv8) as nat == k
  {
  }

  lemma Back(x: bv8)
    ensures (x as nat) as bv8 == x
  {
  }

  lemma Less(x: bv8, y: bv8)
    ensures x < y <==> x as nat < y as nat
  {
  }

  lemma MinusOne(x: bv8)
    requires 0 < x
    ensures (x - 1) as nat == x as nat - 1
  {
  }

  lemma Plus(x: bv8, y: bv8)
    requires x < 64 && y < 64
    ensures (x + y) as nat == x as nat + y as nat
  {
  }

  lemma Minus(x: bv8)
    requires 64 <= x
    ensures (x - 64) as nat == x as nat - 64
  {
  }

  lemma BitIsBit8(w: Word, x: bv8, n: nat)
    requires x as nat == n < 64
    ensures x < 64 && Bit(w, n) == Bit8(w, x)
  {
    hide Bit8;
    Less(x, 64);
    Back(x);
  }

  // ---------------------------------------------------------------------------
  // Masks

  lemma MaskStep(w: Word, k: bv8)
    requires 0 < k < 64
    ensures TestMask(w, Mask(k)) == TestMask(RightBy(w, 1), Mask(k - 1))
  {
  }

  lemma BitStep(w: Word, k: bv8)
    requires 0 < k < 64
    ensures Bit8(w, k) == Bit8(RightBy(w, 1), k - 1)
  {
  }

  lemma MaskOfZero(w: Word)
    ensures TestMask(w, Mask(0)) == Bit8(w, 0)
  {
  }

  /** Testing with a mask is testing the bit. */
  lemma {:induction false} MaskTestsBit(w: Word, k: bv8, n: nat)
    requires k < 64 && k as nat == n
    ensures TestMask(w, Mask(k)) == Bit8(w, k)
    decreases n
  {
    hide TestMask, Mask, Bit8, RightBy;
    if k == 0 {
      MaskOfZero(w);
    } else {
      Less(0, k);
      MinusOne(k);
      MaskStep(w, k);
      BitStep(w, k);
      MaskTestsBit(RightBy(w, 1), k - 1, n - 1);
    }
  }

  lemma BitOfMask(j: bv8, k: bv8)
    requires j < 64 && k < 64
    ensures Bit8(Mask(j), k) == (k == j)
  {
  }

  lemma BitOfSetBit(w: Word, x: bv8, n: nat, k: nat)
    requires x as nat == n < 64 && k < 64
    ensures x < 64 && Bit(Or(w, Mask(x)), k) == (k == n || Bit(w, k))
  {
    hide Bit8, Or, Mask, Bit;
    var y := k as bv8;
    There(k);
    Less(y, 64);
    Less(x, 64);
    BitOfOr(w, Mask(x), y, k);
    BitOfMask(x, y);
    BitIsBit8(w, y, k);
    BitIsBit8(Or(w, Mask(x)), y, k);
  }

  lemma LeftOfZero(b: bv8)
    requires b <= 64
    ensures LeftBy(0, b) == 0
  {
  }

  lemma ZeroHasNoBits(k: nat)
    requires k < 64
    ensures !Bit(0, k)
  {
    hide Bit8;
    There(k);
    Less(k as bv8, 64);
    NoBitInZero(k as bv8);
  }

  lemma NoBitInZero(x: bv8)
    requires x < 64
    ensures !Bit8(0, x)
  {
  }

  // ---------------------------------------------------------------------------
  // Joining two shifted words

  lemma RightThenRight(w: Word, b: bv8, k: bv8)
    requires b < 64 && k < 64
    ensures ((w >> b) >> k) & 1 == (if k + b < 64 then (w >> (k + b)) & 1 else 0)
  {
  }

  lemma LeftThenRight(w: Word, b: bv8, k: bv8)
    requires 0 < b < 64 && k < 64
    ensures ((w << (64 - b)) >> k) & 1 == (if k + b < 64 then 0 else (w >> (k + b - 64)) & 1)
  {
  }

  lemma BitOfRight(w: Word, b: bv8, k: bv8)
    requires b < 64 && k < 64
    ensures Bit8(RightBy(w, b), k) == (k + b < 64 && Bit8(w, k + b))
  {
    RightThenRight(w, b, k);
    if k + b >= 64 {
      assert !Bit8(RightBy(w, b), k);
    }
  }

  lemma BitOfLeft(w: Word, b: bv8, k: bv8)
    requires 0 < b < 64 && k < 64
    ensures Bit8(LeftBy(w, 64 - b), k) == (k + b >= 64 && Bit8(w, k + b - 64))
  {
    LeftThenRight(w, b, k);
    if k + b < 64 {
      assert !Bit8(LeftBy(w, 64 - b), k);
    }
  }

  lemma OrStep(v: Word, w: Word)
    ensures RightBy(Or(v, w), 1) == Or(RightBy(v, 1), RightBy(w, 1))
    ensures Bit8(Or(v, w), 0) == (Bit8(v, 0) || Bit8(w, 0))
  {
  }

  lemma {:induction false} BitOfOr(v: Word, w: Word, k: bv8, n: nat)
    requires k < 64 && k as nat == n
    ensures Bit8(Or(v, w), k) == (Bit8(v, k) || Bit8(w, k))
    decreases n
  {
    hide Bit8, Or, RightBy;
    OrStep(v, w);
    if k != 0 {
      Less(0, k);
      MinusOne(k);
      BitStep(v, k);
      BitStep(w, k);
      BitStep(Or(v, w), k);
      BitOfOr(RightBy(v, 1), RightBy(w, 1), k - 1, n - 1);
    }
  }

  lemma BitOfShiftIn8(x: Word, y: Word, b: bv8, k: bv8)
    requires 0 < b < 64 && k < 64
    ensures Bit8(ShiftIn(x, y, b), k) == if k + b < 64 then Bit8(x, k + b) else Bit8(y, k + b - 64)
  {
    hide Bit8, RightBy, LeftBy, Or;
    BitOfRight(x, b, k);
    BitOfLeft(y, b, k);
    BitOfOr(RightBy(x, b), LeftBy(y, 64 - b), k, k as nat);
  }

  lemma IndexOf(b8: bv8, b: nat, k: nat) returns (k8: bv8)
    requires 0 < b < 64 && k < 64 && b8 as nat == b
    ensures k8 as nat == k && 0 < b8 < 64 && k8 < 64
    ensures (k8 + b8) as nat == k + b && (k8 + b8 < 64 <==> k + b < 64)
    ensures k + b >= 64 ==> (k8 + b8 - 64) as nat == k + b - 64
  {
    k8 := k as bv8;
    There(k);
    Less(b8, 64);
    Less(k8, 64);
    Less(0, b8);
    Plus(k8, b8);
    Less(k8 + b8, 64);
    if k + b >= 64 {
      Minus(k8 + b8);
    }
  }

  lemma Transfer(x: Word, y: Word, m: Word, b: nat, k: nat, k8: bv8, z8: bv8)
    requires 0 < b < 64 && k < 64 && k8 < 64 && k8 as nat == k
    requires z8 as nat == k + b && (z8 < 64 <==> k + b < 64)
    requires k + b >= 64 ==> (z8 - 64) as nat == k + b - 64 && z8 - 64 < 64
    requires Bit8(m, k8) == if z8 < 64 then Bit8(x, z8) else Bit8(y, z8 - 64)
    ensures Bit(m, k) == if k + b < 64 then Bit(x, k + b) else Bit(y, k + b - 64)
  {
    hide Bit, Bit8;
    BitIsBit8(m, k8, k);
    if k + b < 64 {
      BitIsBit8(x, z8, k + b);
    } else {
      BitIsBit8(y, z8 - 64, k + b - 64);
    }
  }

  /** Where bit k comes from when x is shifted right by b and filled with the low bits of y. */
  lemma BitOfShiftIn(x: Word, y: Word, b8: bv8, b: nat, k: nat)
    requires 0 < b < 64 && k < 64 && b8 as nat == b
    ensures 0 < b8 < 64
    ensures Bit(ShiftIn(x, y, b8), k) == if k + b < 64 then Bit(x, k + b) else Bit(y, k + b - 64)
  {
    hide Bit, Bit8, ShiftIn;
    var k8 := IndexOf(b8, b, k);
    BitOfShiftIn8(x, y, b8, k8);
    Transfer(x, y, ShiftIn(x, y, b8), b, k, k8, k8 + b8);
  }
}
