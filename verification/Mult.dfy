/** machine/mipssim.cc: Mult, the shift-and-add multiplication. */
module Multiply {
  import opened Sequences
  import opened Bytes
  import opened Bits
  import opened MemoryModel
  import opened MipsInstructions

  /** The double word hi:lo. */
  function Double(hi: Word, lo: Word): nat {
    hi * MODULUS + lo
  }

  /** `-a` on a C int wraps around. */
  function Negated(a: int32): int32 {
    if a == INT_MIN then INT_MIN else -a
  }

  /** Doubling by shifting, the top bit of the low word carried over. */
  method Twice(hi: Word, lo: Word) returns (hi2: Word, lo2: Word)
    requires 2 * Double(hi, lo) < MODULUS * MODULUS
    ensures Double(hi2, lo2) == 2 * Double(hi, lo)
  {
    assert 2 * hi + 1 <= MODULUS && ToWord(2 * lo) == if lo >= SIGN_BIT then 2 * lo - MODULUS else 2 * lo;
    hi2 := ToWord(2 * hi);
    if lo >= SIGN_BIT {
      hi2 := ToWord(hi2 + 1);
    }
    lo2 := ToWord(2 * lo);
  }

  /** Adding with a carry out of the low word, noticed by the sum being smaller than a summand. */
  method Plus(hi: Word, lo: Word, bHi: Word, bLo: Word) returns (hi2: Word, lo2: Word)
    requires Double(hi, lo) + Double(bHi, bLo) < MODULUS * MODULUS
    ensures Double(hi2, lo2) == Double(hi, lo) + Double(bHi, bLo)
  {
    assert ToWord(lo + bLo) == if lo + bLo >= MODULUS then lo + bLo - MODULUS else lo + bLo;
    hi2, lo2 := hi, ToWord(lo + bLo);
    if lo2 < bLo {
      hi2 := ToWord(hi2 + 1);
    }
    hi2 := ToWord(hi2 + bHi);
  }

  /** One turn of the loop in numbers: `shifted` is b times the weight of the bit, `rest` the bits left.
      Nothing overflows, and the product still to be added is what the invariant says. */
  lemma Turn(acc: nat, rest: nat, shifted: nat, top: nat, all: nat, total: nat)
    requires top >= 2 && top % 2 == 0 && shifted * top == all < MODULUS * MODULUS
    requires acc + rest * shifted == total < MODULUS * MODULUS
    ensures 2 * shifted < MODULUS * MODULUS && 2 * shifted * (top / 2) == all
    ensures rest % 2 == 1 ==> acc + shifted < MODULUS * MODULUS && acc + shifted + rest / 2 * (2 * shifted) == total
    ensures rest % 2 == 0 ==> acc + rest / 2 * (2 * shifted) == total
  {
    if top > 2 { Multiples(shifted, 2, top); }
    if rest > 0 { Multiples(shifted, 0, rest); }
    assert top == 2 * (top / 2) && rest == 2 * (rest / 2) + rest % 2;
    if rest % 2 == 1 { assert rest * shifted == rest / 2 * (2 * shifted) + shifted; }
  }

  /** The C int a has the bits of `rest`; a negative one keeps shifting in ones above them. */
  lemma SameBits(a: int, rest: nat, top: nat)
    requires top % 2 == 0 && rest < top && (a == rest || a == rest - top)
    ensures a % 2 == rest % 2 && rest / 2 < top / 2 && (a / 2 == rest / 2 || a / 2 == rest / 2 - top / 2)
    ensures a == 1 ==> rest == 1
  {
  }

  lemma ProductFits(a: nat, b: nat)
    requires a < MODULUS && b < MODULUS
    ensures a * b < MODULUS * MODULUS
  {
    Multiples(a, b, MODULUS);
  }

  /** The loop: the product of a, its bits read as unsigned, and b, exactly. */
  method MultiplyUnsigned(a0: int32, b: Word) returns (hi: Word, lo: Word)
    ensures Double(hi, lo) == ToWord(a0) * b
  {
    var a: int, bLo: Word, bHi: Word := a0, b, 0;
    lo, hi := 0, 0;
    ghost var rest: nat, top: nat, shifted: nat := ToWord(a0), MODULUS, b;
    ghost var total, all := ToWord(a0) * b, b * MODULUS;
    ThirtyTwoBits();
    ProductFits(ToWord(a0), b);
    for i := 0 to 32
      invariant top == PowerOfTwo(32 - i) && rest < top && (a == rest || a == rest - top)
      invariant Double(bHi, bLo) == shifted && shifted * top == all
      invariant Double(hi, lo) + rest * shifted == total
    {
      assert top == 2 * PowerOfTwo(31 - i);
      SameBits(a, rest, top);
      Turn(Double(hi, lo), rest, shifted, top, all, total);
      if a % 2 == 1 {
        hi, lo := Plus(hi, lo, bHi, bLo);
        if a == 1 {
          break;
        }
      }
      bHi, bLo := Twice(bHi, bLo);
      a := a / 2;
      rest, top, shifted := rest / 2, top / 2, 2 * shifted;
    }
  }

  /** -n as a double word: complement both words and add one. */
  lemma NegatedDouble(hi: Word, lo: Word)
    ensures var lo' := ToWord(Not(lo) + 1); var hi' := if lo' == 0 then ToWord(Not(hi) + 1) else Not(hi);
            Double(hi', lo') == if Double(hi, lo) == 0 then 0 else MODULUS * MODULUS - Double(hi, lo)
  {
  }

  /** Mult: the exact 64-bit product of all operands, signed (two's complement) and unsigned. */
  method Mult(a0: int32, b0: int32, signedArith: bool) returns (hi: Word, lo: Word)
    ensures signedArith ==> Double(hi, lo) == (a0 * b0) % (MODULUS * MODULUS)
    ensures !signedArith ==> Double(hi, lo) == ToWord(a0) * ToWord(b0)
  {
    if a0 == 0 || b0 == 0 {
      return 0, 0;
    }
    var a, b, negative := a0, b0, false;
    if signedArith {
      if a < 0 {
        negative := !negative;
        a := Negated(a);
      }
      if b < 0 {
        negative := !negative;
        b := Negated(b);
      }
    }
    hi, lo := MultiplyUnsigned(a, ToWord(b));
    ghost var size := Double(hi, lo);
    if negative {
      NegatedDouble(hi, lo);
      hi := Not(hi);
      lo := ToWord(Not(lo) + 1);
      if lo == 0 {
        hi := ToWord(hi + 1);
      }
    }
    if signedArith {
      Magnitude(a0);
      Magnitude(b0);
      SignedProduct(a0, b0, size, negative);
    }
  }

  function Abs(x: int): nat {
    if x < 0 then -x else x
  }

  /** Wrapping negation and all, the word is the magnitude; INT_MIN stands for 2^31. */
  lemma Magnitude(x: int32)
    ensures ToWord(if x < 0 then Negated(x) else x) == Abs(x)
  {
  }

  lemma SignedProduct(a: int32, b: int32, size: nat, negative: bool)
    requires a != 0 && b != 0 && size == Abs(a) * Abs(b) && negative == ((a < 0) != (b < 0))
    ensures 0 < size < MODULUS * MODULUS
    ensures (a * b) % (MODULUS * MODULUS) == if negative then MODULUS * MODULUS - size else size
  {
    ProductFits(Abs(a), Abs(b));
    Multiples(Abs(a), 0, Abs(b));
    assert a * b == if negative then 0 - size else size;
    Divides(MODULUS * MODULUS, 0, size);
    if negative { Wrapped(size); }
  }

  lemma Wrapped(size: nat)
    requires 0 < size < MODULUS * MODULUS
    ensures (0 - size) % (MODULUS * MODULUS) == MODULUS * MODULUS - size
  {
  }
}
