/** lib/bitmap.cc: a bitmap kept in 32-bit words.
    An `unsigned int` is modelled as its 32 bits, least significant first. */
module BitmapModel {

  type Word = w: seq<bool> | |w| == 32 witness seq(32, _ => false)
  type Words = seq<Word>

  predicate Covers(map_: Words, n: nat) {
    n <= 32 * |map_|
  }

  function Bit(map_: Words, i: nat): bool
    requires i < 32 * |map_|
  {
    map_[i / 32][i % 32]
  }

  function Mark(map_: Words, i: nat): (r: Words)
    requires i < 32 * |map_|
    ensures |r| == |map_|
  {
    map_[i / 32 := map_[i / 32][i % 32 := true]]
  }

  function Clear(map_: Words, i: nat): (r: Words)
    requires i < 32 * |map_|
    ensures |r| == |map_|
  {
    map_[i / 32 := map_[i / 32][i % 32 := false]]
  }

  /** Marking or clearing one bit leaves every other bit, in this word and the others, alone. */
  lemma MarkOnlyOne(map_: Words, i: nat)
    requires i < 32 * |map_|
    ensures forall j: nat | j < 32 * |map_| :: Bit(Mark(map_, i), j) == (i == j || Bit(map_, j))
    ensures forall j: nat | j < 32 * |map_| :: Bit(Clear(map_, i), j) == (i != j && Bit(map_, j))
  {
    forall j: nat | j < 32 * |map_|
      ensures Bit(Mark(map_, i), j) == (i == j || Bit(map_, j))
      ensures Bit(Clear(map_, i), j) == (i != j && Bit(map_, j))
    {
      assert i / 32 == j / 32 && i % 32 == j % 32 ==> i == j;
    }
  }

  /** Two word arrays of one size with the same bits are the same. */
  lemma BitsDetermine(a: Words, b: Words)
    requires |a| == |b|
    requires forall j: nat | j < 32 * |a| :: Bit(a, j) == Bit(b, j)
    ensures a == b
  {
    forall w | 0 <= w < |a|
      ensures a[w] == b[w]
    {
      forall k | 0 <= k < 32
        ensures a[w][k] == b[w][k]
      {
        assert (32 * w + k) / 32 == w && (32 * w + k) % 32 == k;
        assert Bit(a, 32 * w + k) == Bit(b, 32 * w + k);
      }
    }
  }

  /** The least clear bit in [i, n), or -1. */
  function FirstClear(map_: Words, n: nat, i: nat): (r: int)
    requires i <= n && Covers(map_, n)
    ensures r == -1 ==> forall j: nat | i <= j < n :: Bit(map_, j)
    ensures r != -1 ==> i <= r < n && !Bit(map_, r) && forall j: nat | i <= j < r :: Bit(map_, j)
    decreases map_, n - i
  {
    if i == n then -1
    else if !Bit(map_, i) then i
    else FirstClear(map_, n, i + 1)
  }

  /** How many of the first n bits are clear. */
  function NumClear(map_: Words, n: nat): (c: nat)
    requires Covers(map_, n)
    ensures c <= n
  {
    if n == 0 then 0 else NumClear(map_, n - 1) + if Bit(map_, n - 1) then 0 else 1
  }

  lemma {:induction false} NumClearSame(a: Words, b: Words, n: nat)
    requires Covers(a, n) && Covers(b, n)
    requires forall j: nat | j < n :: Bit(a, j) == Bit(b, j)
    ensures NumClear(a, n) == NumClear(b, n)
  {
    if n > 0 { NumClearSame(a, b, n - 1); }
  }

  lemma {:induction false} NumClearMark(map_: Words, n: nat, i: nat)
    requires Covers(map_, n) && i < n && !Bit(map_, i)
    ensures NumClear(Mark(map_, i), n) == NumClear(map_, n) - 1
  {
    MarkOnlyOne(map_, i);
    if i == n - 1 {
      NumClearSame(map_, Mark(map_, i), n - 1);
    } else {
      NumClearMark(map_, n - 1, i);
    }
  }

  lemma {:induction false} NumClearPositive(map_: Words, n: nat)
    requires Covers(map_, n) && NumClear(map_, n) > 0
    ensures FirstClear(map_, n, 0) != -1
  {
    if forall j: nat | j < n :: Bit(map_, j) {
      NumClearNone(map_, n);
    }
  }

  lemma {:induction false} NumClearNone(map_: Words, n: nat)
    requires Covers(map_, n) && forall j: nat | j < n :: Bit(map_, j)
    ensures NumClear(map_, n) == 0
  {
    if n > 0 { NumClearNone(map_, n - 1); }
  }

  /** What k calls of FindAndSet in a row leave behind, and what they return. */
  datatype Grab = Grab(words: Words, taken: seq<nat>)

  function FindAndSetMany(map_: Words, n: nat, k: nat): (g: Grab)
    requires Covers(map_, n) && k <= NumClear(map_, n)
    ensures |g.words| == |map_| && |g.taken| == k
    ensures NumClear(g.words, n) == NumClear(map_, n) - k
  {
    if k == 0 then Grab(map_, [])
    else
      var before := FindAndSetMany(map_, n, k - 1);
      NumClearPositive(before.words, n);
      var s: nat := FirstClear(before.words, n, 0);
      NumClearMark(before.words, n, s);
      Grab(Mark(before.words, s), before.taken + [s])
  }

  /** The bits taken were clear and are all different; they and no others become marked. */
  lemma {:induction false} GrabTakesClearBits(map_: Words, n: nat, k: nat)
    requires Covers(map_, n) && k <= NumClear(map_, n)
    ensures var g := FindAndSetMany(map_, n, k);
            && (forall s | s in g.taken :: s < n && !Bit(map_, s))
            && (forall a, b | 0 <= a < b < k :: g.taken[a] != g.taken[b])
            && (forall j: nat | j < 32 * |map_| :: Bit(g.words, j) == (Bit(map_, j) || j in g.taken))
  {
    if k > 0 {
      GrabTakesClearBits(map_, n, k - 1);
      var before := FindAndSetMany(map_, n, k - 1);
      NumClearPositive(before.words, n);
      MarkOnlyOne(before.words, FirstClear(before.words, n, 0));
    }
  }

  class Bitmap {
    var words: Words
    const numBits: nat

    ghost predicate Valid()
      reads this
    {
      0 < numBits && |words| == (numBits + 31) / 32
    }

    constructor (numItems: nat)
      requires numItems > 0
      ensures Valid() && numBits == numItems
      ensures forall i: nat | i < 32 * |words| :: !Bit(words, i)
    {
      numBits := numItems;
      words := seq((numItems + 31) / 32, _ => seq(32, _ => false));
    }

    method MarkBit(which: nat)
      requires Valid() && which < numBits
      modifies this
      ensures Valid() && words == Mark(old(words), which)
    {
      words := words[which / 32 := words[which / 32][which % 32 := true]];
    }

    method ClearBit(which: nat)
      requires Valid() && which < numBits
      modifies this
      ensures Valid() && words == Clear(old(words), which)
    {
      words := words[which / 32 := words[which / 32][which % 32 := false]];
    }

    function Test(which: nat): bool
      requires Valid() && which < numBits
      reads this
    {
      Bit(words, which)
    }

    /** Allocate the lowest clear bit, or report -1 with nothing changed. */
    method FindAndSet() returns (r: int)
      requires Valid()
      modifies this
      ensures Valid()
      ensures r == FirstClear(old(words), numBits, 0)
      ensures words == if r == -1 then old(words) else Mark(old(words), r)
    {
      var i := 0;
      while i < numBits
        invariant i <= numBits && words == old(words)
        invariant FirstClear(words, numBits, 0) == FirstClear(words, numBits, i)
      {
        if !Test(i) {
          MarkBit(i);
          return i;
        }
        i := i + 1;
      }
      return -1;
    }

    method NumClearBits() returns (count: nat)
      requires Valid()
      ensures count == NumClear(words, numBits)
    {
      count := 0;
      var i := 0;
      while i < numBits
        invariant i <= numBits && count == NumClear(words, i)
      {
        if !Test(i) { count := count + 1; }
        i := i + 1;
      }
    }
  }
}
