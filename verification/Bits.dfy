/** Binary numbers: C's bitwise operators, bit by bit. */
module Bits {

  function PowerOfTwo(n: nat): (p: nat)
    ensures p > 0
  {
    if n == 0 then 1 else 2 * PowerOfTwo(n - 1)
  }

  /** A bitwise operation on the low n bits. */
  function Bitwise(f: (bool, bool) -> bool, a: nat, b: nat, n: nat): (r: nat)
    ensures r < PowerOfTwo(n)
    decreases n, a
  {
    if n == 0 then 0 else (if f(a % 2 == 1, b % 2 == 1) then 1 else 0) + 2 * Bitwise(f, a / 2, b / 2, n - 1)
  }

  lemma ThirtyTwoBits()
    ensures PowerOfTwo(32) == 0x1_0000_0000
  {
    assert PowerOfTwo(8) == 0x100;
    assert PowerOfTwo(16) == 0x1_0000;
    assert PowerOfTwo(24) == 0x100_0000;
  }

  /** Bit k of a number. */
  predicate BitAt(w: nat, k: nat) {
    if k == 0 then w % 2 == 1 else BitAt(w / 2, k - 1)
  }

  lemma {:induction false} BitwiseAt(f: (bool, bool) -> bool, a: nat, b: nat, n: nat, k: nat)
    requires k < n
    ensures BitAt(Bitwise(f, a, b, n), k) == f(BitAt(a, k), BitAt(b, k))
    decreases n
  {
    var tail := Bitwise(f, a / 2, b / 2, n - 1);
    var bit := if f(a % 2 == 1, b % 2 == 1) then 1 else 0;
    assert (bit + 2 * tail) / 2 == tail && (bit + 2 * tail) % 2 == bit;
    if k > 0 { BitwiseAt(f, a / 2, b / 2, n - 1, k - 1); }
  }

  lemma {:induction false} ComplementAt(a: nat, n: nat, k: nat)
    requires k < n && a < PowerOfTwo(n)
    ensures BitAt(PowerOfTwo(n) - 1 - a, k) == !BitAt(a, k)
    decreases n
  {
    var c := PowerOfTwo(n) - 1 - a;
    assert PowerOfTwo(n) == 2 * PowerOfTwo(n - 1);
    assert c == 2 * (PowerOfTwo(n - 1) - 1 - a / 2) + (1 - a % 2);
    if k > 0 { ComplementAt(a / 2, n - 1, k - 1); }
  }

  /** The number whose binary digits are b, least significant first. */
  function Value(b: seq<bool>): nat {
    if b == [] then 0 else (if b[0] then 1 else 0) + 2 * Value(b[1..])
  }

  function Disjunction(): (bool, bool) -> bool { (x, y) => x || y }
  function Conjunction(): (bool, bool) -> bool { (x, y) => x && y }
  function Exclusive(): (bool, bool) -> bool { (x, y) => x != y }

  lemma {:induction false} OrNothing(b: seq<bool>)
    ensures Bitwise(Disjunction(), Value(b), 0, |b|) == Value(b)
  {
    if b != [] {
      LowBit(b);
      OrNothing(b[1..]);
    }
  }

  lemma {:induction false} AndNothing(b: seq<bool>)
    ensures Bitwise(Conjunction(), Value(b), 0, |b|) == 0
  {
    if b != [] {
      LowBit(b);
      AndNothing(b[1..]);
    }
  }

  lemma {:induction false} AndEverything(b: seq<bool>)
    ensures Bitwise(Conjunction(), Value(b), PowerOfTwo(|b|) - 1, |b|) == Value(b)
  {
    if b != [] {
      LowBit(b);
      AllOnes(|b|);
      AndEverything(b[1..]);
    }
  }

  lemma AllOnes(n: nat)
    requires n > 0
    ensures (PowerOfTwo(n) - 1) / 2 == PowerOfTwo(n - 1) - 1 && (PowerOfTwo(n) - 1) % 2 == 1
  {
  }

  lemma LowBit(b: seq<bool>)
    requires b != []
    ensures Value(b) / 2 == Value(b[1..]) && (Value(b) % 2 == 1 <==> b[0])
  {
  }

  /** x | (1 << k) sets bit k. */
  lemma {:induction false} OrSetsBit(b: seq<bool>, k: nat)
    requires k < |b|
    ensures Bitwise(Disjunction(), Value(b), PowerOfTwo(k), |b|) == Value(b[k := true])
  {
    LowBit(b);
    LowBit(b[k := true]);
    if k == 0 {
      assert b[0 := true][1..] == b[1..];
      OrNothing(b[1..]);
    } else {
      assert b[k := true][1..] == b[1..][k - 1 := true];
      OrSetsBit(b[1..], k - 1);
    }
  }

  /** x & ~(1 << k) clears bit k. */
  lemma {:induction false} AndNotClearsBit(b: seq<bool>, k: nat)
    requires k < |b|
    ensures PowerOfTwo(k) < PowerOfTwo(|b|)
    ensures Bitwise(Conjunction(), Value(b), PowerOfTwo(|b|) - 1 - PowerOfTwo(k), |b|) == Value(b[k := false])
  {
    LowBit(b);
    LowBit(b[k := false]);
    AllButOne(|b|, k);
    if k == 0 {
      assert b[0 := false][1..] == b[1..];
      AndEverything(b[1..]);
    } else {
      assert b[k := false][1..] == b[1..][k - 1 := false];
      AndNotClearsBit(b[1..], k - 1);
    }
  }

  lemma AllButOne(n: nat, k: nat)
    requires k < n
    ensures PowerOfTwo(k) < PowerOfTwo(n)
    ensures var m := PowerOfTwo(n) - 1 - PowerOfTwo(k);
            if k == 0 then m / 2 == PowerOfTwo(n - 1) - 1 && m % 2 == 0
            else m / 2 == PowerOfTwo(n - 1) - 1 - PowerOfTwo(k - 1) && m % 2 == 1
  {
    Larger(k, n);
    if k > 0 { Larger(k - 1, n - 1); }
  }

  lemma {:induction false} Larger(k: nat, n: nat)
    requires k < n
    ensures PowerOfTwo(k) < PowerOfTwo(n)
    decreases n
  {
    if k < n - 1 { Larger(k, n - 1); }
  }

  /** x & (1 << k) is nonzero exactly when bit k is set. */
  lemma {:induction false} AndFindsBit(b: seq<bool>, k: nat)
    requires k < |b|
    ensures Bitwise(Conjunction(), Value(b), PowerOfTwo(k), |b|) == if b[k] then PowerOfTwo(k) else 0
  {
    LowBit(b);
    if k == 0 {
      AndNothing(b[1..]);
    } else {
      AndFindsBit(b[1..], k - 1);
    }
  }
}
