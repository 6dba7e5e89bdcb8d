/** What the computing instructions of machine/mipssim.cc give, one by one, on integers and on bits. */
module ArithmeticMeaning {
  import opened Sequences
  import opened Bits
  import opened Bytes
  import opened MemoryModel
  import opened MipsInstructions
  import opened InstructionMeaning
  import Multiply

  // ---- addition and subtraction ---------------------------------------------

  /** The result is the C int x, or there is none because x is no C int. */
  predicate Exactly(v: Option<Word>, x: int) {
    if INT_MIN <= x <= INT_MAX then v.Some? && Signed(v.value) == x else v.None?
  }

  /** The result is x, less or plus multiples of 2^32. */
  predicate Wrapped(v: Option<Word>, x: int) {
    v.Some? && (v.value - x) % 0x1_0000_0000 == 0
  }

  /** ADD, ADDI and SUB compute on C ints and trap exactly when the result is none.  `a` and `b` are the registers rs
      and rt, x the immediate operand. */
  lemma SignedAdditions(a: Word, b: Word, x: Word, hi: Word, lo: Word)
    ensures Exactly(ArithValue(ADD, a, b, x, hi, lo), Signed(a) + Signed(b))
    ensures Exactly(ArithValue(ADDI, a, b, x, hi, lo), Signed(a) + Signed(x))
    ensures Exactly(ArithValue(SUB, a, b, x, hi, lo), Signed(a) - Signed(b))
  {
    SumIsExact(a, b);
    SumIsExact(a, x);
    DifferenceIsExact(a, b);
  }

  lemma WrapsAround(i: int)
    ensures Wrapped(Some(ToWord(i)), i)
  {
    assert i == MODULUS * (i / MODULUS) + i % MODULUS;
  }

  /** ADDU, ADDIU and SUBU wrap around and never trap. */
  lemma WrappingAdditions(a: Word, b: Word, x: Word, hi: Word, lo: Word)
    ensures Wrapped(ArithValue(ADDU, a, b, x, hi, lo), a + b)
    ensures Wrapped(ArithValue(ADDIU, a, b, x, hi, lo), a + x)
    ensures Wrapped(ArithValue(SUBU, a, b, x, hi, lo), a as int - b as int)
  {
    WrapsAround(a + b);
    WrapsAround(a + x);
    WrapsAround(a as int - b as int);
  }

  // ---- comparisons ----------------------------------------------------------

  /** SLT and SLTI compare C ints, SLTU and SLTIU unsigned words; the answer is 1 or 0. */
  lemma Comparisons(a: Word, b: Word, x: Word, hi: Word, lo: Word)
    ensures ArithValue(SLT, a, b, x, hi, lo) == Some(if Signed(b) - Signed(a) > 0 then 1 else 0)
    ensures ArithValue(SLTI, a, b, x, hi, lo) == Some(if Signed(x) - Signed(a) > 0 then 1 else 0)
    ensures ArithValue(SLTU, a, b, x, hi, lo) == Some(if b as int - a as int > 0 then 1 else 0)
    ensures ArithValue(SLTIU, a, b, x, hi, lo) == Some(if x as int - a as int > 0 then 1 else 0)
  {
  }

  lemma Moves(a: Word, b: Word, x: Word, hi: Word, lo: Word)
    ensures ArithValue(MFHI, a, b, x, hi, lo) == Some(hi) && ArithValue(MFLO, a, b, x, hi, lo) == Some(lo)
  {
  }

  // ---- bits of numbers ------------------------------------------------------

  lemma {:induction false} NoBit(x: nat, n: nat, k: nat)
    requires x < PowerOfTwo(n) && n <= k
    ensures !BitAt(x, k)
    decreases k
  {
    if n > 0 { NoBit(x / 2, n - 1, k - 1); } else if k > 0 { NoBit(0, 0, k - 1); }
  }

  /** The low n bits. */
  lemma {:induction false} LowBits(x: nat, n: nat, k: nat)
    ensures BitAt(x % PowerOfTwo(n), k) == (k < n && BitAt(x, k))
    decreases n, k
  {
    var p := PowerOfTwo(n);
    if k >= n {
      NoBit(x % p, n, k);
    } else {
      HalfOfRemainder(x, PowerOfTwo(n - 1));
      if k > 0 { LowBits(x / 2, n - 1, k - 1); }
    }
  }

  lemma HalfOfRemainder(x: nat, p: nat)
    requires p > 0
    ensures x % (2 * p) % 2 == x % 2 && x % (2 * p) / 2 == x / 2 % p
  {
    var q, r := x / 2 / p, x / 2 % p;
    assert x / 2 == p * q + r;
    var rest := 2 * r + x % 2;
    assert 2 * (p * q) == 2 * p * q;
    assert x == 2 * p * q + rest && rest < 2 * p;
    Divides(2 * p, q, rest);
  }

  /** Multiplying by 2^n moves bits up. */
  lemma {:induction false} ShiftedUp(x: nat, n: nat, k: nat)
    ensures BitAt(x * PowerOfTwo(n), k) == (k >= n && BitAt(x, k - n))
    decreases n
  {
    if n > 0 {
      var half := x * PowerOfTwo(n - 1);
      assert x * PowerOfTwo(n) == 2 * half;
      if k > 0 { ShiftedUp(x, n - 1, k - 1); }
    }
  }

  /** One more bit on top. */
  lemma {:induction false} TopBit(x: nat, n: nat, k: nat)
    requires x < PowerOfTwo(n)
    ensures BitAt(x + PowerOfTwo(n), k) == (BitAt(x, k) || k == n)
    decreases n
  {
    if n > 0 {
      var p := PowerOfTwo(n - 1);
      assert (x + 2 * p) / 2 == x / 2 + p && (x + 2 * p) % 2 == x % 2;
      if k > 0 { TopBit(x / 2, n - 1, k - 1); }
    } else if k > 0 {
      NoBit(0, 0, k - 1);
    }
  }

  lemma ThirtyOneBits()
    ensures PowerOfTwo(31) == SIGN_BIT
  {
    ThirtyTwoBits();
  }

  lemma SignIsTopBit(v: Word)
    ensures Negative(v) == BitAt(v, 31)
  {
    ThirtyOneBits();
    if Negative(v) { TopBit(v - SIGN_BIT, 31, 31); } else { NoBit(v, 31, 31); }
  }

  // ---- shifts ---------------------------------------------------------------

  lemma ShiftLeftBits(w: Word, n: nat, k: nat)
    requires k < 32
    ensures BitAt(ShiftLeft(w, n), k) == (k >= n && BitAt(w, k - n))
  {
    ThirtyTwoBits();
    LowBits(w * PowerOfTwo(n), 32, k);
    ShiftedUp(w, n, k);
  }

  /** Shifting right by n and then by one is shifting by n + 1. */
  lemma ShiftOnceMore(w: Word, n: nat)
    ensures ShiftRight(w, n + 1) == ShiftRight(ShiftRight(w, n), 1)
  {
    var x, p := Signed(w), PowerOfTwo(n);
    assert PowerOfTwo(n + 1) == 2 * p && PowerOfTwo(1) == 2;
    QuotientShrinks(x, p);
    SignedRoundTrip(x / p);
    HalfQuotient(x, p);
  }

  lemma QuotientShrinks(x: int, p: nat)
    requires p > 0 && INT_MIN <= x <= INT_MAX
    ensures INT_MIN <= x / p <= INT_MAX
  {
    if x < 0 {
      ArithmeticShift(x, p);
    } else {
      SmallerQuotient(x, p);
    }
  }

  lemma HalfQuotient(x: int, p: nat)
    requires p > 0
    ensures x / (2 * p) == x / p / 2
  {
    var q, r := x / p, x % p;
    var h := q / 2;
    assert x == p * q + r && q == 2 * h + q % 2;
    var rest := p * (q % 2) + r;
    assert p * q == p * (2 * h) + p * (q % 2);
    assert p * (2 * h) == 2 * p * h;
    assert x == 2 * p * h + rest;
    assert 0 <= rest < 2 * p by { if q % 2 == 1 { assert p * (q % 2) == p; } }
    FloorUnique(x, 2 * p, h, rest);
  }

  lemma ShiftByOne(v: Word, k: nat)
    requires k < 32
    ensures BitAt(ShiftRight(v, 1), k) == if k < 31 then BitAt(v, k + 1) else BitAt(v, 31)
  {
    assert PowerOfTwo(1) == 2;
    ThirtyOneBits();
    SignIsTopBit(v);
    NoBit(v / 2, 31, 31);
    if Negative(v) {
      assert ShiftRight(v, 1) == v / 2 + SIGN_BIT;
      TopBit(v / 2, 31, k);
    } else {
      assert ShiftRight(v, 1) == v / 2;
    }
  }

  /** Every right shift keeps the sign: bits above the top are copies of it. */
  lemma {:induction false} ShiftRightBits(w: Word, n: nat, k: nat)
    requires k < 32
    ensures BitAt(ShiftRight(w, n), k) == if k + n < 32 then BitAt(w, k + n) else BitAt(w, 31)
    decreases n
  {
    if n == 0 {
      SignedRoundTripWord(w);
    } else {
      ShiftOnceMore(w, n - 1);
      ShiftByOne(ShiftRight(w, n - 1), k);
      if k < 31 { ShiftRightBits(w, n - 1, k + 1); } else { ShiftRightBits(w, n - 1, 31); }
    }
  }

  lemma SignedRoundTripWord(w: Word)
    ensures ShiftRight(w, 0) == w
  {
    assert PowerOfTwo(0) == 1;
  }

  /** Bit k of a result is bit k - n of w, and 0 where there is no such bit. */
  predicate MovedUp(v: Option<Word>, w: Word, n: nat) {
    v.Some? && forall k: nat | k < 32 :: BitAt(v.value, k) == (k >= n && BitAt(w, k - n))
  }

  /** Bit k of a result is bit k + n of w, and the sign of w where there is no such bit. */
  predicate MovedDown(v: Option<Word>, w: Word, n: nat) {
    v.Some? && forall k: nat | k < 32 :: BitAt(v.value, k) == if k + n < 32 then BitAt(w, k + n) else BitAt(w, 31)
  }

  lemma IsMovedUp(w: Word, n: nat)
    ensures MovedUp(Some(ShiftLeft(w, n)), w, n)
  {
    forall k: nat | k < 32
      ensures BitAt(ShiftLeft(w, n), k) == (k >= n && BitAt(w, k - n))
    {
      ShiftLeftBits(w, n, k);
    }
  }

  lemma IsMovedDown(w: Word, n: nat)
    ensures MovedDown(Some(ShiftRight(w, n)), w, n)
  {
    forall k: nat | k < 32
      ensures BitAt(ShiftRight(w, n), k) == if k + n < 32 then BitAt(w, k + n) else BitAt(w, 31)
    {
      ShiftRightBits(w, n, k);
    }
  }

  /** LUI puts the immediate operand into the upper half. */
  lemma UpperHalf(a: Word, b: Word, x: Word, hi: Word, lo: Word, n: nat)
    requires n == 16
    ensures MovedUp(ArithValue(LUI, a, b, x, hi, lo), x, n)
  {
    assert ArithValue(LUI, a, b, x, hi, lo) == Some(ShiftLeft(x, n));
    IsMovedUp(x, n);
  }

  /** SLL and SLLV shift rt up, by the shift amount or the low five bits of rs. */
  lemma LeftShifts(a: Word, b: Word, x: Word, hi: Word, lo: Word)
    ensures MovedUp(ArithValue(SLL, a, b, x, hi, lo), b, x % 32)
    ensures MovedUp(ArithValue(SLLV, a, b, x, hi, lo), b, a % 32)
  {
    var n, m := x % 32, a % 32;
    assert ArithValue(SLL, a, b, x, hi, lo) == Some(ShiftLeft(b, n));
    assert ArithValue(SLLV, a, b, x, hi, lo) == Some(ShiftLeft(b, m));
    IsMovedUp(b, n);
    IsMovedUp(b, m);
  }

  /** SRA, SRAV, SRL and SRLV all shift rt down keeping its sign. */
  lemma RightShifts(a: Word, b: Word, x: Word, hi: Word, lo: Word)
    ensures MovedDown(ArithValue(SRA, a, b, x, hi, lo), b, x % 32)
    ensures MovedDown(ArithValue(SRAV, a, b, x, hi, lo), b, a % 32)
    ensures MovedDown(ArithValue(SRL, a, b, x, hi, lo), b, x % 32)
    ensures MovedDown(ArithValue(SRLV, a, b, x, hi, lo), b, a % 32)
  {
    var n, m := x % 32, a % 32;
    assert ArithValue(SRA, a, b, x, hi, lo) == Some(ShiftRight(b, n)) == ArithValue(SRL, a, b, x, hi, lo);
    assert ArithValue(SRAV, a, b, x, hi, lo) == Some(ShiftRight(b, m)) == ArithValue(SRLV, a, b, x, hi, lo);
    IsMovedDown(b, n);
    IsMovedDown(b, m);
  }

  // ---- immediate logical operations -----------------------------------------

  lemma HalfBits(x: Word, k: nat)
    ensures BitAt(x % 0x1_0000, k) == (k < 16 && BitAt(x, k))
  {
    assert PowerOfTwo(8) == 0x100 && PowerOfTwo(16) == 0x1_0000;
    LowBits(x, 16, k);
  }

  /** What the three are, with the low half of the operand. */
  lemma LowHalfUsed(a: Word, b: Word, x: Word, hi: Word, lo: Word, y: Word)
    requires y == x % 0x1_0000
    ensures ArithValue(ANDI, a, b, x, hi, lo) == Some(And(a, y))
    ensures ArithValue(ORI, a, b, x, hi, lo) == Some(Or(a, y))
    ensures ArithValue(XORI, a, b, x, hi, lo) == Some(Xor(a, y))
  {
  }

  lemma LogicOnWords(a: Word, y: Word, k: nat)
    requires k < 32
    ensures BitAt(And(a, y), k) == (BitAt(a, k) && BitAt(y, k)) && BitAt(Or(a, y), k) == (BitAt(a, k) || BitAt(y, k))
    ensures BitAt(Xor(a, y), k) == (BitAt(a, k) != BitAt(y, k))
  {
    AndBits(a, y, 0, 0, 0, k);
    OrBits(a, y, 0, 0, 0, k);
    XorBits(a, y, 0, 0, 0, k);
  }

  /** ANDI, ORI and XORI take the low sixteen bits of the immediate operand, not its sign. */
  lemma ImmediateBits(a: Word, b: Word, x: Word, hi: Word, lo: Word, k: nat)
    requires k < 32
    ensures ResultBit(ArithValue(ANDI, a, b, x, hi, lo), k) == (BitAt(a, k) && k < 16 && BitAt(x, k))
    ensures ResultBit(ArithValue(ORI, a, b, x, hi, lo), k) == (BitAt(a, k) || (k < 16 && BitAt(x, k)))
    ensures ResultBit(ArithValue(XORI, a, b, x, hi, lo), k) == (BitAt(a, k) != (k < 16 && BitAt(x, k)))
  {
    var y := x % 0x1_0000;
    LowHalfUsed(a, b, x, hi, lo, y);
    HalfBits(x, k);
    LogicOnWords(a, y, k);
  }

  // ---- multiplication and division ------------------------------------------

  /** HI and LO as one 64-bit number. */
  function HiLoNumber(v: (Word, Word)): nat {
    v.0 * 0x1_0000_0000 + v.1
  }

  /** MULT gives all 64 bits of the signed product, in two's complement; MULTU the exact product. */
  lemma SignedProduct(a: Word, b: Word, hi: Word, lo: Word)
    ensures (HiLoNumber(HiLoValue(MULT, a, b, hi, lo)) - Signed(a) * Signed(b)) % (0x1_0000_0000 * 0x1_0000_0000) == 0
  {
    var p := Signed(a) * Signed(b);
    assert HiLoValue(MULT, a, b, hi, lo) == Halves(p);
    HalvesOf(p);
  }

  lemma UnsignedProduct(a: Word, b: Word, hi: Word, lo: Word)
    ensures HiLoNumber(HiLoValue(MULTU, a, b, hi, lo)) == a * b
  {
    var p := a * b;
    assert HiLoValue(MULTU, a, b, hi, lo) == Halves(p);
    Multiply.ProductFits(a, b);
    SmallHalves(p);
  }

  /** MTHI and MTLO set one and keep the other. */
  lemma MovesTo(a: Word, b: Word, hi: Word, lo: Word)
    ensures HiLoValue(MTHI, a, b, hi, lo) == (a, lo) && HiLoValue(MTLO, a, b, hi, lo) == (hi, a)
  {
  }

  lemma HalvesOf(p: int)
    ensures (HiLoNumber(Halves(p)) - p) % (MODULUS * MODULUS) == 0
  {
    var q := p / MODULUS;
    assert p == MODULUS * q + p % MODULUS && q == MODULUS * (q / MODULUS) + q % MODULUS;
    assert HiLoNumber(Halves(p)) - p == (MODULUS * MODULUS) * -(q / MODULUS);
    FloorUnique(HiLoNumber(Halves(p)) - p, MODULUS * MODULUS, -(q / MODULUS), 0);
  }

  lemma SmallHalves(p: nat)
    requires p < MODULUS * MODULUS
    ensures HiLoNumber(Halves(p)) == p
  {
  }

  /** DIVU leaves the quotient in LO and the remainder in HI; a division by zero clears both. */
  lemma UnsignedDivision(a: Word, b: Word, hi: Word, lo: Word)
    ensures b == 0 ==> HiLoValue(DIVU, a, b, hi, lo) == (0, 0) == HiLoValue(DIV, a, b, hi, lo)
    ensures b != 0 ==> var v := HiLoValue(DIVU, a, b, hi, lo); v.1 * b + v.0 == a && v.0 < b
  {
    if b != 0 { SmallerQuotient(a, b); }
  }

  /** The signed remainder has the sign of the dividend and is smaller than the divisor. */
  lemma SignedRemainder(a: Word, b: Word, hi: Word, lo: Word)
    requires b != 0
    ensures var r := Signed(HiLoValue(DIV, a, b, hi, lo).0);
            && (if Signed(b) < 0 then -Signed(b) else Signed(b)) > (if r < 0 then -r else r)
            && (Signed(a) >= 0 ==> r >= 0) && (Signed(a) <= 0 ==> r <= 0)
  {
    var x, y := Signed(a), Signed(b);
    QuotientFacts(x, y);
    SignedRoundTrip(x - Quotient(x, y) * y);
  }
}
