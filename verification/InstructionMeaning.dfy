/** What the instructions of machine/mipssim.cc mean, said without their formulas. */
module InstructionMeaning {
  import opened Sequences
  import opened Bits
  import opened Bytes
  import opened MemoryModel
  import opened MipsInstructions

  // ---- bits -----------------------------------------------------------------

  /** Bit k of a result, if there is one. */
  predicate ResultBit(v: Option<Word>, k: nat) {
    v.Some? && BitAt(v.value, k)
  }

  /** AND, OR, XOR and NOR act on each of the 32 bits by itself. */
  lemma AndBits(a: Word, b: Word, x: Word, hi: Word, lo: Word, k: nat)
    requires k < 32
    ensures ResultBit(ArithValue(AND, a, b, x, hi, lo), k) == (BitAt(a, k) && BitAt(b, k))
  {
    ThirtyTwoBits();
    BitwiseAt(Conjunction(), a, b, 32, k);
  }

  lemma OrBits(a: Word, b: Word, x: Word, hi: Word, lo: Word, k: nat)
    requires k < 32
    ensures ResultBit(ArithValue(OR, a, b, x, hi, lo), k) == (BitAt(a, k) || BitAt(b, k))
  {
    ThirtyTwoBits();
    BitwiseAt(Disjunction(), a, b, 32, k);
  }

  lemma XorBits(a: Word, b: Word, x: Word, hi: Word, lo: Word, k: nat)
    requires k < 32
    ensures ResultBit(ArithValue(XOR, a, b, x, hi, lo), k) == (BitAt(a, k) != BitAt(b, k))
  {
    ThirtyTwoBits();
    BitwiseAt(Exclusive(), a, b, 32, k);
  }

  lemma NorBits(a: Word, b: Word, x: Word, hi: Word, lo: Word, k: nat)
    requires k < 32
    ensures ResultBit(ArithValue(NOR, a, b, x, hi, lo), k) == !(BitAt(a, k) || BitAt(b, k))
  {
    OrBits(a, b, x, hi, lo, k);
    NotBits(Or(a, b), k);
  }

  lemma NotBits(a: Word, k: nat)
    requires k < 32
    ensures BitAt(Not(a), k) == !BitAt(a, k)
  {
    ThirtyTwoBits();
    ComplementAt(a, 32, k);
  }

  /** Where no bit is set in both, OR adds. */
  lemma {:induction false} OrAdds(f: (bool, bool) -> bool, a: nat, b: nat, n: nat, m: nat)
    requires forall p, q :: f(p, q) == (p || q)
    requires m <= n && a % PowerOfTwo(m) == 0 && b < PowerOfTwo(m) && a < PowerOfTwo(n)
    ensures Bitwise(f, a, b, n) == a + b
    decreases n
  {
    if n > 0 {
      assert a == 2 * (a / 2) + a % 2 && b == 2 * (b / 2) + b % 2;
      if m == 0 {
        OrAdds(f, a / 2, b / 2, n - 1, 0);
      } else {
        HalfOfMultiple(a, PowerOfTwo(m - 1));
        OrAdds(f, a / 2, b / 2, n - 1, m - 1);
      }
    }
  }

  lemma HalfOfMultiple(a: nat, p: nat)
    requires p > 0 && a % (2 * p) == 0
    ensures a % 2 == 0 && a / 2 % p == 0
  {
    var q := a / (2 * p);
    assert a == 2 * p * q == 2 * (p * q);
    assert a / 2 == p * q;
    Divides(p, q, 0);
  }

  /** OR of a multiple of 2^28 and a smaller number. */
  lemma RegionOr(q: nat, b: nat)
    requires q < 16 && b < 0x1000_0000
    ensures Or(q * 0x1000_0000, b) == q * 0x1000_0000 + b
  {
    TwentyEightBits();
    ThirtyTwoBits();
    Divides(0x1000_0000, q, 0);
    OrAdds(Disjunction(), q * 0x1000_0000, b, 32, 28);
  }

  /** J and JAL go to a word in the 256-megabyte region of the delay slot. */
  lemma JumpTarget(a: Word, b: Word, extra: Word, nextPc: Word)
    requires extra < 0x400_0000
    ensures var to := ToWord(nextPc + 4) / 0x1000_0000 * 0x1000_0000 + 4 * extra;
            Target(J, a, b, extra, nextPc) == to && Target(JAL, a, b, extra, nextPc) == to
  {
    InRegion(ToWord(nextPc + 4), extra);
  }

  lemma InRegion(on: Word, extra: Word)
    requires extra < 0x400_0000
    ensures Or(on / 0x1000_0000 * 0x1000_0000, ToWord(4 * extra)) == on / 0x1000_0000 * 0x1000_0000 + 4 * extra
  {
    Divides(MODULUS, 0, 4 * extra);
    assert ToWord(4 * extra) == 4 * extra;
    RegionOr(on / 0x1000_0000, 4 * extra);
  }

  lemma TwentyEightBits()
    ensures PowerOfTwo(28) == 0x1000_0000
  {
    assert PowerOfTwo(8) == 0x100;
    assert PowerOfTwo(16) == 0x1_0000;
    assert PowerOfTwo(24) == 0x100_0000;
  }

  // ---- loads and stores -----------------------------------------------------

  /** LB sign-extends, LBU does not. */
  lemma ByteLoadsExtend(v: Word, w: Word, k: nat)
    ensures var b := v % 0x100;
            Signed(Loaded(LB, v, w, k)) == (if b >= 0x80 then b - 0x100 else b) && Loaded(LBU, v, w, k) == b
  {
    var m, b := v / 0x100, v % 0x100;
    if b >= 0x80 { Divides(0x80, 2 * m + 1, b - 0x80); } else { Divides(0x80, 2 * m, b); }
  }

  /** LH sign-extends, LHU does not. */
  lemma HalfLoadsExtend(v: Word, w: Word, k: nat)
    ensures var h := v % 0x1_0000;
            Signed(Loaded(LH, v, w, k)) == (if h >= 0x8000 then h - 0x1_0000 else h) && Loaded(LHU, v, w, k) == h
  {
    var m, h := v / 0x1_0000, v % 0x1_0000;
    if h >= 0x8000 { Divides(0x8000, 2 * m + 1, h - 0x8000); } else { Divides(0x8000, 2 * m, h); }
  }

  /** What SB, SH and SW store is read back by a load of the same size. */
  lemma StoreReadsBack(bytes: Ram, p: nat, size: Size, v: Word)
    requires p + SizeOf(size) <= MEMORY_SIZE
    ensures var f := MemoryModel.Fetched(MemoryModel.Stored(bytes, p, size, v), p, size);
            match size case One => f % 0x100 == v % 0x100 case Two => f == v % 0x1_0000 case Four => f == v
  {
    if size == Four { WordReadsBack(bytes, p, v); } else if size == Two { WordOfBytes(v); }
  }

  /** A store changes no byte outside its range. */
  lemma StoreStaysInside(bytes: Ram, p: nat, size: Size, v: Word, q: nat)
    requires p + SizeOf(size) <= MEMORY_SIZE && q < MEMORY_SIZE && !(p <= q < p + SizeOf(size))
    ensures MemoryModel.Stored(bytes, p, size, v)[q] == bytes[q]
  {
    if size == Four { PutWordAt(bytes, p, v, q); }
  }

  // ---- division -------------------------------------------------------------

  /** C's quotient and remainder. */
  lemma QuotientFacts(a: int, b: int)
    requires b != 0
    ensures var q := Quotient(a, b);
            var r := a - q * b;
            && (if b < 0 then -b else b) > (if r < 0 then -r else r) && (a >= 0 ==> r >= 0) && (a <= 0 ==> r <= 0)
  {
    if a >= 0 { assert a == b * (a / b) + a % b; } else { assert -a == b * ((-a) / b) + (-a) % b; }
  }

  lemma QuotientRange(a: int, b: int)
    requires b != 0 && INT_MIN <= a <= INT_MAX
    ensures var q := Quotient(a, b); if a == INT_MIN && b == -1 then q == INT_MAX + 1 else INT_MIN <= q <= INT_MAX
  {
    SmallerMagnitude(if a >= 0 then a else -a, b);
  }

  /** Dividing makes no number larger, and by anything but 1 and -1 at most half as large. */
  lemma SmallerMagnitude(x: int, b: int)
    requires x >= 0 && b != 0
    ensures b > 0 ==> 0 <= x / b <= x
    ensures b < 0 ==> -x <= x / b <= 0
    ensures b > 1 || b < -1 ==> -x <= 2 * (x / b) <= x
    ensures b == -1 ==> x / b == -x
  {
    if b > 1 {
      SmallQuotient(x, b);
    } else if b < -1 {
      var q := x / b;
      assert x == (-b) * (-q) + x % b;
      FloorUnique(x, -b, -q, x % b);
      SmallQuotient(x, -b);
    }
  }

  lemma FloorUnique(x: int, d: nat, q: int, r: nat)
    requires d > 0 && r < d && x == d * q + r
    ensures x / d == q
  {
    var q1 := x / d;
    assert x == d * q1 + x % d;
    if q > q1 { Multiples(d, q1, q); }
    if q < q1 { Multiples(d, q, q1); }
  }

  lemma SmallQuotient(x: nat, d: nat)
    requires d >= 2
    ensures 0 <= 2 * (x / d) <= x
  {
    var q := x / d;
    assert x == d * q + x % d && q >= 0;
    Multiples(q, 1, d);
  }

  /** DIV leaves the quotient in LO and the remainder in HI, the quotient rounded toward zero - exactly when
      the divisor is not zero and it is not the one division whose quotient is no C int. */
  lemma DivisionIsExact(a: Word, b: Word, hi0: Word, lo0: Word)
    requires b != 0
    ensures var v := HiLoValue(DIV, a, b, hi0, lo0);
            var lo, hi := Signed(v.1), Signed(v.0);
            lo * Signed(b) + hi == Signed(a) <==> !(Signed(a) == INT_MIN && Signed(b) == -1)
  {
    QuotientFacts(Signed(a), Signed(b));
    QuotientRange(Signed(a), Signed(b));
    var q := Quotient(Signed(a), Signed(b));
    SignedRoundTrip(Signed(a) - q * Signed(b));
    if INT_MIN <= q <= INT_MAX { SignedRoundTrip(q); }
  }

  lemma SignedRoundTrip(x: int)
    requires INT_MIN <= x <= INT_MAX
    ensures Signed(ToWord(x)) == x
  {
  }
}
