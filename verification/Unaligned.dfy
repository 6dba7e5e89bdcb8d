/** SWL, SWR, LWL and LWR of machine/mipssim.cc: words at any address. */
module UnalignedAccess {
  import opened Sequences
  import opened Bytes
  import opened MemoryModel
  import opened MipsInstructions
  import opened Mips
  import opened LoadDelay

  // ---- bytes of a split and of a merged word --------------------------------

  /** The masks and shifts of whole bytes, by byte. */
  lemma Cuts(w: Word)
    ensures var b0, b1, b2, b3 := ByteOf(w, 0), ByteOf(w, 1), ByteOf(w, 2), ByteOf(w, 3);
      && w == b0 + 0x100 * b1 + 0x1_0000 * b2 + 0x100_0000 * b3
      && w % 0x1_0000 == b0 + 0x100 * b1 && w % 0x100_0000 == b0 + 0x100 * b1 + 0x1_0000 * b2
      && w / 0x100 == b1 + 0x100 * b2 + 0x1_0000 * b3 && w / 0x1_0000 == b2 + 0x100 * b3
  {
    var b0: int, b1: int, b2: int, b3: int := ByteOf(w, 0), ByteOf(w, 1), ByteOf(w, 2), ByteOf(w, 3);
    WordOfBytes(w);
    Divides(0x100, b1 + 0x100 * b2 + 0x1_0000 * b3, b0);
    Divides(0x1_0000, b2 + 0x100 * b3, b0 + 0x100 * b1);
    Divides(0x100_0000, b3, b0 + 0x100 * b1 + 0x1_0000 * b2);
  }

  lemma Unsplit(w: Word, b0: byte, b1: byte, b2: byte, b3: byte)
    requires w == b0 + 0x100 * b1 + 0x1_0000 * b2 + 0x100_0000 * b3
    ensures ByteOf(w, 0) == b0 && ByteOf(w, 1) == b1 && ByteOf(w, 2) == b2 && ByteOf(w, 3) == b3
  {
    BytesOfWord(b0, b1, b2, b3);
  }

  /** SWL replaces bytes 0 to k of the word by the top bytes of r. */
  lemma SplitLeftBytes(w: Word, r: Word, k: nat, j: nat)
    requires k < 4 && j < 4
    ensures ByteOf(SplitLeft(w, r, k), j) == if j <= k then ByteOf(r, j + 3 - k) else ByteOf(w, j)
  {
    Cuts(w);
    Cuts(r);
    var v := SplitLeft(w, r, k);
    if k == 0 { Unsplit(v, ByteOf(r, 3), ByteOf(w, 1), ByteOf(w, 2), ByteOf(w, 3)); }
    if k == 1 { Unsplit(v, ByteOf(r, 2), ByteOf(r, 3), ByteOf(w, 2), ByteOf(w, 3)); }
    if k == 2 { Unsplit(v, ByteOf(r, 1), ByteOf(r, 2), ByteOf(r, 3), ByteOf(w, 3)); }
  }

  /** SWR replaces bytes k to 3 of the word by the low bytes of r. */
  lemma SplitRightBytes(w: Word, r: Word, k: nat, j: nat)
    requires k < 4 && j < 4
    ensures ByteOf(SplitRight(w, r, k), j) == if j >= k then ByteOf(r, j - k) else ByteOf(w, j)
  {
    Cuts(w);
    Cuts(r);
    var v := SplitRight(w, r, k);
    if k == 1 { Unsplit(v, ByteOf(w, 0), ByteOf(r, 0), ByteOf(r, 1), ByteOf(r, 2)); }
    if k == 2 { Unsplit(v, ByteOf(w, 0), ByteOf(w, 1), ByteOf(r, 0), ByteOf(r, 1)); }
    if k == 3 { Unsplit(v, ByteOf(w, 0), ByteOf(w, 1), ByteOf(w, 2), ByteOf(r, 0)); }
  }

  /** LWL takes the top bytes of the register from bytes 0 to k of the word. */
  lemma MergeLeftBytes(o: Word, w: Word, k: nat, j: nat)
    requires k < 4 && j < 4
    ensures ByteOf(MergeLeft(o, w, k), j) == if j >= 3 - k then ByteOf(w, j + k - 3) else ByteOf(o, j)
  {
    Cuts(o);
    Cuts(w);
    var v := MergeLeft(o, w, k);
    if k == 0 { Unsplit(v, ByteOf(o, 0), ByteOf(o, 1), ByteOf(o, 2), ByteOf(w, 0)); }
    if k == 1 { Unsplit(v, ByteOf(o, 0), ByteOf(o, 1), ByteOf(w, 0), ByteOf(w, 1)); }
    if k == 2 { Unsplit(v, ByteOf(o, 0), ByteOf(w, 0), ByteOf(w, 1), ByteOf(w, 2)); }
  }

  /** LWR takes the low bytes of the register from bytes k to 3 of the word. */
  lemma MergeRightBytes(o: Word, w: Word, k: nat, j: nat)
    requires k < 4 && j < 4
    ensures ByteOf(MergeRight(o, w, k), j) == if j <= 3 - k then ByteOf(w, j + k) else ByteOf(o, j)
  {
    Cuts(o);
    Cuts(w);
    var v := MergeRight(o, w, k);
    if k == 1 { Unsplit(v, ByteOf(w, 1), ByteOf(w, 2), ByteOf(w, 3), ByteOf(o, 3)); }
    if k == 2 { Unsplit(v, ByteOf(w, 2), ByteOf(w, 3), ByteOf(o, 2), ByteOf(o, 3)); }
    if k == 3 { Unsplit(v, ByteOf(w, 3), ByteOf(o, 1), ByteOf(o, 2), ByteOf(o, 3)); }
  }

  // ---- the two words around an address --------------------------------------

  /** The aligned word that holds an address. */
  function WordAt(a: Word): Word {
    a - a % 4
  }

  /** The word that holds the byte three further on. */
  function WordAfter(a: Word): int {
    WordAt(a) + if a % 4 == 0 then 0 else 4
  }

  /** Consecutive words do not overlap in memory even when their pages share a frame. */
  lemma WordsApart(m: Memory, w: Word)
    requires w % 4 == 0 && w + 4 < MODULUS && Translate(m, w, Four, true).At? && Translate(m, w + 4, Four, true).At?
    ensures Apart(Translate(m, w, Four, true).phys, Translate(m, w + 4, Four, true).phys, 1)
  {
    Neighbours(w);
    PagesApart(Locate(m, w / PAGE_SIZE, true).page, w % PAGE_SIZE,
               Locate(m, (w + 4) / PAGE_SIZE, true).page, (w + 4) % PAGE_SIZE);
  }

  lemma Neighbours(w: Word)
    requires w % 4 == 0
    ensures var x, y := w % PAGE_SIZE, (w + 4) % PAGE_SIZE; (y == x + 4 && y + 4 <= PAGE_SIZE) || (x == 124 && y == 0)
  {
    var i, j := w / 4 / 32, w / 4 % 32;
    assert w == PAGE_SIZE * i + 4 * j;
    Divides(PAGE_SIZE, i, 4 * j);
    if j < 31 { Divides(PAGE_SIZE, i, 4 * (j + 1)); } else { Divides(PAGE_SIZE, i + 1, 0); }
  }

  lemma PagesApart(f: nat, x: nat, g: nat, y: nat)
    requires (y == x + 4 && y + 4 <= 128) || (x == 124 && y == 0)
    ensures f * 128 + x + 4 <= g * 128 + y || g * 128 + y + 4 <= f * 128 + x
  {
  }

  // ---- memory, byte by byte -------------------------------------------------

  /** Where the four bytes from an address within a word lie: k bytes into the word at lo, and on into the
      word at hi. */
  function Spot(lo: nat, hi: nat, k: nat, t: nat): nat
    requires k < 4 && t < 4
  {
    if k + t < 4 then lo + k + t else hi + k + t - 4
  }

  predicate Apart(lo: nat, hi: nat, k: nat) {
    if k == 0 then hi == lo else lo + 4 <= hi || hi + 4 <= lo
  }

  function High(k: nat): (h: nat)
    requires k < 4
    ensures h < 4
  {
    if k == 0 then 3 else k - 1
  }

  /** What SWL and then SWR do to memory. */
  function BothStored(bytes: Ram, lo: nat, hi: nat, k: nat, r: Word): Ram
    requires lo + 4 <= MEMORY_SIZE && hi + 4 <= MEMORY_SIZE && k < 4
  {
    var b1: Ram := PutWord(bytes, hi, SplitLeft(GetWord(bytes, hi), r, High(k)));
    PutWord(b1, lo, SplitRight(GetWord(b1, lo), r, k))
  }

  lemma LeftStoredAt(bytes: Ram, hi: nat, h: nat, r: Word, q: nat)
    requires hi + 4 <= MEMORY_SIZE && h < 4 && q < MEMORY_SIZE
    ensures PutWord(bytes, hi, SplitLeft(GetWord(bytes, hi), r, h))[q]
         == if hi <= q <= hi + h then ByteOf(r, q - hi + 3 - h) else bytes[q]
  {
    var v := SplitLeft(GetWord(bytes, hi), r, h);
    PutWordAt(bytes, hi, v, q);
    if hi <= q < hi + 4 {
      SplitLeftBytes(GetWord(bytes, hi), r, h, q - hi);
      WordBytes(bytes, hi, q - hi);
    }
  }

  lemma RightStoredAt(bytes: Ram, lo: nat, k: nat, r: Word, q: nat)
    requires lo + 4 <= MEMORY_SIZE && k < 4 && q < MEMORY_SIZE
    ensures PutWord(bytes, lo, SplitRight(GetWord(bytes, lo), r, k))[q]
         == if lo + k <= q < lo + 4 then ByteOf(r, q - lo - k) else bytes[q]
  {
    var v := SplitRight(GetWord(bytes, lo), r, k);
    PutWordAt(bytes, lo, v, q);
    if lo <= q < lo + 4 {
      SplitRightBytes(GetWord(bytes, lo), r, k, q - lo);
      WordBytes(bytes, lo, q - lo);
    }
  }

  /** Exactly the four bytes change, to those of r in little-endian order. */
  lemma BothStoredAt(bytes: Ram, lo: nat, hi: nat, k: nat, r: Word, q: nat)
    requires lo + 4 <= MEMORY_SIZE && hi + 4 <= MEMORY_SIZE && k < 4 && q < MEMORY_SIZE && Apart(lo, hi, k)
    ensures forall t: nat | t < 4 && q == Spot(lo, hi, k, t) :: BothStored(bytes, lo, hi, k, r)[q] == ByteOf(r, t)
    ensures (forall t: nat | t < 4 :: q != Spot(lo, hi, k, t)) ==> BothStored(bytes, lo, hi, k, r)[q] == bytes[q]
  {
    var b1: Ram := PutWord(bytes, hi, SplitLeft(GetWord(bytes, hi), r, High(k)));
    LeftStoredAt(bytes, hi, High(k), r, q);
    RightStoredAt(b1, lo, k, r, q);
    if lo + k <= q < lo + 4 {
      assert q == Spot(lo, hi, k, q - lo - k);
    } else if k > 0 && hi <= q <= hi + k - 1 {
      assert q == Spot(lo, hi, k, q - hi + 4 - k);
    }
  }

  /** The four bytes are those of r. */
  predicate Collected(bytes: Ram, lo: nat, hi: nat, k: nat, r: Word)
    requires lo + 4 <= MEMORY_SIZE && hi + 4 <= MEMORY_SIZE && k < 4
  {
    forall t: nat | t < 4 :: bytes[Spot(lo, hi, k, t)] == ByteOf(r, t)
  }

  /** LWL and then LWR collect the four bytes. */
  lemma BothMerged(bytes: Ram, lo: nat, hi: nat, k: nat, r: Word, o: Word)
    requires lo + 4 <= MEMORY_SIZE && hi + 4 <= MEMORY_SIZE && k < 4 && Apart(lo, hi, k)
    requires Collected(bytes, lo, hi, k, r)
    ensures MergeRight(MergeLeft(o, GetWord(bytes, hi), High(k)), GetWord(bytes, lo), k) == r
  {
    var left := MergeLeft(o, GetWord(bytes, hi), High(k));
    var v := MergeRight(left, GetWord(bytes, lo), k);
    forall j: nat | j < 4
      ensures ByteOf(v, j) == ByteOf(r, j)
    {
      assert bytes[Spot(lo, hi, k, j)] == ByteOf(r, j);
      MergeRightBytes(left, GetWord(bytes, lo), k, j);
      MergeLeftBytes(o, GetWord(bytes, hi), High(k), j);
      if j <= 3 - k {
        WordBytes(bytes, lo, j + k);
      } else {
        WordBytes(bytes, hi, j + High(k) - 3);
      }
    }
    BytesDetermine(v, r);
  }

  // ---- the four instructions ------------------------------------------------

  /** Both words around the address are mapped and writable. */
  predicate Reachable(m: Memory, a: Word) {
    && Translate(m, WordAt(a), Four, true).At?
    && WordAfter(a) < MODULUS && Translate(m, WordAfter(a), Four, true).At?
  }

  function Lo(m: Memory, a: Word): (p: nat)
    requires Reachable(m, a)
    ensures p + 4 <= MEMORY_SIZE
  {
    Translate(m, WordAt(a), Four, true).phys
  }

  function Hi(m: Memory, a: Word): (p: nat)
    requires Reachable(m, a)
    ensures p + 4 <= MEMORY_SIZE
  {
    Translate(m, WordAfter(a), Four, true).phys
  }

  lemma LoHiApart(m: Memory, a: Word)
    requires Reachable(m, a)
    ensures Apart(Lo(m, a), Hi(m, a), a % 4)
  {
    if a % 4 != 0 { WordsApart(m, WordAt(a)); }
  }

  /** Byte t after the address, as a byte access finds it. */
  lemma SpotIsPhys(m: Memory, a: Word, t: nat)
    requires Reachable(m, a) && t < 4
    ensures a + t < MODULUS
    ensures Phys(m, a + t).At? && Phys(m, a + t).phys == Spot(Lo(m, a), Hi(m, a), a % 4, t)
  {
    var k := a % 4;
    if k + t < 4 { PhysAt(m, WordAt(a), k + t, a + t); } else { PhysAt(m, WordAfter(a), k + t - 4, a + t); }
  }

  lemma PhysAt(m: Memory, w: Word, j: nat, p: nat)
    requires w % 4 == 0 && j < 4 && p == w + j && Translate(m, w, Four, true).At?
    ensures p < MODULUS && Phys(m, p).At? && Phys(m, p).phys == Translate(m, w, Four, true).phys + j
  {
    PhysInWord(m, w, true, j);
  }

  /** Two memories that translate addresses alike. */
  predicate SameMap(m: Memory, n: Memory) {
    forall a: Word, size, writing {:trigger Translate(n, a, size, writing)} ::
        Translate(n, a, size, writing) == Translate(m, a, size, writing)
  }

  lemma TouchedMap(m: Memory, index: nat, w: bool, bytes: Ram)
    requires index < |m.entries|
    ensures SameMap(m, Touched(m, index, w).(bytes := bytes))
  {
    forall a: Word, size, writing
      ensures Translate(Touched(m, index, w).(bytes := bytes), a, size, writing) == Translate(m, a, size, writing)
    {
      TouchedTranslate(m, index, w, a, size, writing);
      BytesDoNotMap(Touched(m, index, w), bytes, a, size, writing);
    }
  }

  lemma BytesDoNotMap(m: Memory, bytes: Ram, a: Word, size: Size, writing: bool)
    ensures Translate(m.(bytes := bytes), a, size, writing) == Translate(m, a, size, writing)
  {
  }

  lemma WritableIsReadable(m: Memory, a: Word, size: Size)
    requires Translate(m, a, size, true).At?
    ensures Translate(m, a, size, false) == Translate(m, a, size, true)
  {
  }

  /** One half of an unaligned store. */
  lemma HalfStore(m: Memory, op: StoreOp, a: Word, r: Word)
    requires (op == SWL || op == SWR) && Translate(m, WordAt(a), Four, true).At?
    ensures var e := StoreMem(R3000, m, op, a, r);
            var p := Translate(m, WordAt(a), Four, true).phys;
            && e.Kept? && SameMap(m, e.mem)
            && e.mem.bytes == PutWord(m.bytes, p, Split(op, GetWord(m.bytes, p), r, a % 4))
  {
    var w := WordAt(a);
    ReadWord(m, w);
    var got := ReadMem(m, w, Four);
    var value := GetWord(m.bytes, Translate(m, w, Four, true).phys);
    assert R3000.read(m, a - a % 4, Four) == Got(got.mem, value);
    StoreMemPart(R3000, m, op, a, r, got.mem, value);
    WriteWord(m, got.mem, w, Split(op, value, r, a % 4));
  }

  /** A word written into a memory that maps addresses as m does. */
  lemma WriteWord(m: Memory, n: Memory, w: Word, v: Word)
    requires Translate(m, w, Four, true).At? && SameMap(m, n) && n.bytes == m.bytes
    ensures var e := StoreAt(R3000, n, w, Four, v);
      && e.Kept? && SameMap(m, e.mem) && e.mem.bytes == PutWord(m.bytes, Translate(m, w, Four, true).phys, v)
  {
    SameTranslation(m, n, w);
    var bytes := PutWord(n.bytes, Translate(n, w, Four, true).phys, v);
    TouchedMap(n, Translate(n, w, Four, true).index, true, bytes);
    SameMapOnward(m, n, StoreAt(R3000, n, w, Four, v).mem);
  }

  lemma ReadWord(m: Memory, w: Word)
    requires Translate(m, w, Four, true).At?
    ensures var got := ReadMem(m, w, Four);
      && got.Got? && SameMap(m, got.mem) && got.mem.bytes == m.bytes
      && got.value == GetWord(m.bytes, Translate(m, w, Four, true).phys)
  {
    WritableIsReadable(m, w, Four);
    TouchedMap(m, Translate(m, w, Four, true).index, false, m.bytes);
  }

  /** The machine after a load or store that leaves register q (none if 0) to be loaded with v. */
  function After(s: Machine<Word>, mem: Memory, q: Reg, v: Word): Machine<Word>
    requires Formed(s)
  {
    s.(gpr := Landed(MIPS, s.gpr, s.loadReg, s.loadValue), loadReg := q, loadValue := v, mem := mem,
       prevPc := s.pc, pc := s.nextPc, nextPc := ToWord(s.nextPc + 4))
  }

  function Do(s: Machine<Word>, op: Op, base: Reg, r: Reg, extra: Word): Outcome<Word>
    requires Formed(s)
  {
    Complete(MIPS, s, Execute(MIPS, s, Instruction(op, base, r, 0, extra)))
  }

  lemma CompleteAfter(s: Machine<Word>, mem: Memory, q: Reg, v: Word)
    requires Ready(MIPS, s)
    ensures Complete(MIPS, s, Effect(mem, 0, 0, s.hi, s.lo, ToWord(s.nextPc + 4), q, v))
            == Outcome(After(s, mem, q, v), None)
  {
    assert s.gpr[0 := 0] == s.gpr;
  }

  lemma ExecuteStore(isa: Isa<Word>, u: Units, s: Machine<Word>, op: StoreOp, base: Reg, r: Reg, extra: Word,
                     mem: Memory)
    requires BuiltFrom(isa, u) && Formed(s)
    requires StoreMem(u, s.mem, op, ToWord(s.gpr[base] + extra), s.gpr[r]) == StoreResult.Kept(mem)
    ensures Execute(isa, s, Instruction(Store(op), base, r, 0, extra))
            == Effect(mem, 0, 0, s.hi, s.lo, ToWord(s.nextPc + 4), 0, 0)
  {
    var i := Instruction(Store(op), base, r, 0, extra);
    ComputeKept(u, i, OperandsOf(isa, s, i), mem);
  }

  /** One half of an unaligned store, as an instruction. */
  lemma StoreStep(s: Machine<Word>, op: StoreOp, base: Reg, r: Reg, extra: Word, a: Word) returns (mem: Memory)
    requires Ready(MIPS, s) && (op == SWL || op == SWR) && ToWord(s.gpr[base] + extra) == a
    requires Translate(s.mem, WordAt(a), Four, true).At?
    ensures Do(s, Store(op), base, r, extra) == Outcome(After(s, mem, 0, 0), None)
    ensures SameMap(s.mem, mem)
    ensures var p := Translate(s.mem, WordAt(a), Four, true).phys;
            mem.bytes == PutWord(s.mem.bytes, p, Split(op, GetWord(s.mem.bytes, p), s.gpr[r], a % 4))
  {
    mem := ExecuteHalf(s, op, base, r, extra, a);
    CompleteAfter(s, mem, 0, 0);
  }

  lemma ExecuteHalf(s: Machine<Word>, op: StoreOp, base: Reg, r: Reg, extra: Word, a: Word) returns (mem: Memory)
    requires Ready(MIPS, s) && (op == SWL || op == SWR) && ToWord(s.gpr[base] + extra) == a
    requires Translate(s.mem, WordAt(a), Four, true).At?
    ensures Execute(MIPS, s, Instruction(Store(op), base, r, 0, extra))
            == Effect(mem, 0, 0, s.hi, s.lo, ToWord(s.nextPc + 4), 0, 0)
    ensures SameMap(s.mem, mem)
    ensures var p := Translate(s.mem, WordAt(a), Four, true).phys;
            mem.bytes == PutWord(s.mem.bytes, p, Split(op, GetWord(s.mem.bytes, p), s.gpr[r], a % 4))
  {
    HalfStore(s.mem, op, a, s.gpr[r]);
    mem := StoreMem(R3000, s.mem, op, a, s.gpr[r]).mem;
    MipsIsBuilt();
    ExecuteStore(MIPS, R3000, s, op, base, r, extra, mem);
  }

  lemma ExecuteLoad(isa: Isa<Word>, u: Units, s: Machine<Word>, op: LoadOp, base: Reg, q: Reg, extra: Word, at: Word,
                    mem: Memory, w: Word)
    requires BuiltFrom(isa, u) && Formed(s) && (op == LWL || op == LWR) && at == ToWord(s.gpr[base] + extra)
    requires u.read(s.mem, WordAt(at), Four) == Got(mem, w)
    ensures Execute(isa, s, Instruction(Load(op), base, q, 0, extra))
         == Effect(mem, 0, 0, s.hi, s.lo, ToWord(s.nextPc + 4), q, u.loaded(op, w, Merged(s, q), at % 4))
  {
    var i := Instruction(Load(op), base, q, 0, extra);
    ComputeGot(u, i, OperandsOf(isa, s, i), mem, w);
  }

  /** One half of an unaligned load, as an instruction. */
  lemma LoadStep(s: Machine<Word>, op: LoadOp, base: Reg, q: Reg, extra: Word, a: Word, w: Word, v: Word)
    returns (mem: Memory)
    requires Ready(MIPS, s) && (op == LWL || op == LWR) && ToWord(s.gpr[base] + extra) == a
    requires Translate(s.mem, WordAt(a), Four, true).At?
    requires w == GetWord(s.mem.bytes, Translate(s.mem, WordAt(a), Four, true).phys)
    requires v == Loaded(op, w, Merged(s, q), a % 4)
    ensures Do(s, Load(op), base, q, extra) == Outcome(After(s, mem, q, v), None)
    ensures SameMap(s.mem, mem) && mem.bytes == s.mem.bytes
  {
    ReadWord(s.mem, WordAt(a));
    mem := ReadMem(s.mem, WordAt(a), Four).mem;
    MipsIsBuilt();
    ExecuteLoad(MIPS, R3000, s, op, base, q, extra, a, mem, w);
    CompleteAfter(s, mem, q, v);
  }

  /** x(base) is address a and y(base) the address three further on. */
  predicate Addresses(base: Word, x: Word, y: Word, a: Word) {
    ToWord(base + x) == a && ToWord(base + y) == ToWord(a + 3)
  }

  // ---- the round trip -------------------------------------------------------

  /** SWL r, y(base) and SWR r, x(base), where y is three more than x: neither traps, and exactly the bytes
      a to a + 3 of memory change, to r in little-endian order. */
  lemma StorePair(s: Machine<Word>, base: Reg, r: Reg, x: Word, y: Word, a: Word)
    returns (s1: Machine<Word>, s2: Machine<Word>)
    requires Ready(MIPS, s) && (s.loadReg == 0 || (s.loadReg != base && s.loadReg != r))
    requires Addresses(s.gpr[base], x, y, a) && Reachable(s.mem, a)
    ensures Do(s, Store(SWL), base, r, y) == Outcome(s1, None)
    ensures Formed(s1) && Do(s1, Store(SWR), base, r, x) == Outcome(s2, None)
    ensures s2.gpr == Settle(MIPS, s).gpr && s2.loadReg == 0 && SameMap(s.mem, s2.mem)
    ensures s2.mem.bytes == BothStored(s.mem.bytes, Lo(s.mem, a), Hi(s.mem, a), a % 4, s.gpr[r])
  {
    ThreeFurther(a);
    var m1 := StoreStep(s, SWL, base, r, y, a + 3);
    s1 := After(s, m1, 0, 0);
    Kept(s, m1, 0, 0, base);
    Kept(s, m1, 0, 0, r);
    assert Addresses(s1.gpr[base], x, y, a);
    s2 := StoreRight(s, s1, base, r, x, a);
    LandedAgain(MIPS, s.gpr, s.loadReg, s.loadValue, 0);
  }

  lemma StoreRight(s: Machine<Word>, s1: Machine<Word>, base: Reg, r: Reg, x: Word, a: Word) returns (s2: Machine<Word>)
    requires Formed(s) && Ready(MIPS, s1) && s1.loadReg == 0 && s1.loadValue == 0 && s1.gpr[r] == s.gpr[r]
    requires ToWord(s1.gpr[base] + x) == a && Reachable(s.mem, a) && SameMap(s.mem, s1.mem)
    requires s1.mem.bytes
             == PutWord(s.mem.bytes, Hi(s.mem, a),
                        Split(SWL, GetWord(s.mem.bytes, Hi(s.mem, a)), s.gpr[r], High(a % 4)))
    ensures Do(s1, Store(SWR), base, r, x) == Outcome(s2, None)
    ensures s2.gpr == s1.gpr && s2.loadReg == 0 && SameMap(s.mem, s2.mem)
    ensures s2.mem.bytes == BothStored(s.mem.bytes, Lo(s.mem, a), Hi(s.mem, a), a % 4, s.gpr[r])
  {
    SameTranslation(s.mem, s1.mem, WordAt(a));
    var m2 := StoreStep(s1, SWR, base, r, x, a);
    s2 := After(s1, m2, 0, 0);
    TwoHalves(s.mem.bytes, s1.mem.bytes, m2.bytes, Lo(s.mem, a), Hi(s.mem, a), a % 4, s.gpr[r]);
    SameMapOnward(s.mem, s1.mem, m2);
  }

  lemma SameTranslation(m: Memory, n: Memory, a: Word)
    requires SameMap(m, n)
    ensures Translate(n, a, Four, true) == Translate(m, a, Four, true)
  {
  }

  lemma SameMapOnward(m: Memory, n: Memory, o: Memory)
    requires SameMap(m, n) && SameMap(n, o)
    ensures SameMap(m, o)
  {
    forall a: Word, size, writing
      ensures Translate(o, a, size, writing) == Translate(m, a, size, writing)
    {
      assert Translate(n, a, size, writing) == Translate(m, a, size, writing);
    }
  }

  lemma ThreeFurther(a: Word)
    requires WordAfter(a) < MODULUS
    ensures a + 3 < MODULUS && ToWord(a + 3) == a + 3 && WordAt(a + 3) == WordAfter(a) && (a + 3) % 4 == High(a % 4)
  {
    if a % 4 == 0 { Divides(4, a / 4, 3); } else { Divides(4, a / 4 + 1, a % 4 - 1); }
  }

  lemma TwoHalves(b0: Ram, b1: Ram, b2: Ram, lo: nat, hi: nat, k: nat, r: Word)
    requires lo + 4 <= MEMORY_SIZE && hi + 4 <= MEMORY_SIZE && k < 4
    requires b1 == PutWord(b0, hi, Split(SWL, GetWord(b0, hi), r, High(k)))
    requires b2 == PutWord(b1, lo, Split(SWR, GetWord(b1, lo), r, k))
    ensures b2 == BothStored(b0, lo, hi, k, r)
  {
  }

  /** Registers without a pending load stay. */
  lemma Kept(s: Machine<Word>, mem: Memory, q: Reg, v: Word, r: Reg)
    requires Ready(MIPS, s) && (s.loadReg == 0 || s.loadReg != r)
    ensures Ready(MIPS, After(s, mem, q, v)) && After(s, mem, q, v).gpr[r] == s.gpr[r]
  {
  }

  /** LWL q, y(base) and LWR q, x(base), with or without an interrupt between them: neither traps, memory
      stays, and the register becomes the four bytes from a on once the load has landed. */
  lemma LoadPair(s: Machine<Word>, base: Reg, q: Reg, x: Word, y: Word, a: Word, interrupted: bool, r: Word)
    returns (s1: Machine<Word>, s2: Machine<Word>)
    requires Ready(MIPS, s) && s.loadReg == 0 && q != 0 && q != base
    requires Addresses(s.gpr[base], x, y, a) && Reachable(s.mem, a)
    requires Collected(s.mem.bytes, Lo(s.mem, a), Hi(s.mem, a), a % 4, r)
    ensures Do(s, Load(LWL), base, q, y) == Outcome(s1, None)
    ensures Formed(s1) && Do(if interrupted then Settle(MIPS, s1) else s1, Load(LWR), base, q, x) == Outcome(s2, None)
    ensures s2.mem.bytes == s.mem.bytes && SameMap(s.mem, s2.mem)
    ensures Formed(s2) && Settle(MIPS, s2).gpr == s.gpr[q := r]
  {
    var left := MergeLeft(Merged(s, q), GetWord(s.mem.bytes, Hi(s.mem, a)), High(a % 4));
    var m1 := LoadHigh(s, base, q, y, a);
    s1 := After(s, m1, q, left);
    var t;
    t, s2 := LoadLow(s, m1, base, q, x, a, interrupted, left, r);
  }

  lemma LoadHigh(s: Machine<Word>, base: Reg, q: Reg, y: Word, a: Word) returns (mem: Memory)
    requires Ready(MIPS, s) && ToWord(s.gpr[base] + y) == ToWord(a + 3) && Reachable(s.mem, a)
    ensures var left := MergeLeft(Merged(s, q), GetWord(s.mem.bytes, Hi(s.mem, a)), High(a % 4));
            Do(s, Load(LWL), base, q, y) == Outcome(After(s, mem, q, left), None)
    ensures SameMap(s.mem, mem) && mem.bytes == s.mem.bytes
  {
    ThreeFurther(a);
    var w := GetWord(s.mem.bytes, Hi(s.mem, a));
    mem := LoadStep(s, LWL, base, q, y, a + 3, w, MergeLeft(Merged(s, q), w, High(a % 4)));
  }

  /** The second of the two starts in state t. */
  lemma LoadLow(s: Machine<Word>, m1: Memory, base: Reg, q: Reg, x: Word, a: Word, interrupted: bool, left: Word,
                r: Word)
    returns (t: Machine<Word>, s2: Machine<Word>)
    requires Ready(MIPS, s) && s.loadReg == 0 && q != 0 && q != base
    requires ToWord(s.gpr[base] + x) == a && Reachable(s.mem, a)
    requires left == MergeLeft(Merged(s, q), GetWord(s.mem.bytes, Hi(s.mem, a)), High(a % 4))
    requires Collected(s.mem.bytes, Lo(s.mem, a), Hi(s.mem, a), a % 4, r)
    requires SameMap(s.mem, m1) && m1.bytes == s.mem.bytes
    ensures t == Between(s, m1, q, left, interrupted)
    ensures Formed(t) && Do(t, Load(LWR), base, q, x) == Outcome(s2, None)
    ensures s2.mem.bytes == s.mem.bytes && SameMap(s.mem, s2.mem)
    ensures Formed(s2) && Settle(MIPS, s2).gpr == s.gpr[q := r]
  {
    t := Between(s, m1, q, left, interrupted);
    SettledBetween(s, m1, q, left, base, interrupted);
    SameTranslation(s.mem, t.mem, WordAt(a));
    LoHiApart(s.mem, a);
    BothMerged(s.mem.bytes, Lo(s.mem, a), Hi(s.mem, a), a % 4, r, Merged(s, q));
    var mem := LoadStep(t, LWR, base, q, x, a, GetWord(s.mem.bytes, Lo(s.mem, a)), r);
    s2 := After(t, mem, q, r);
    SameMapOnward(s.mem, t.mem, mem);
    SettledAfter(s, m1, q, left, interrupted, mem, r);
  }

  /** State s with v loaded into q, pending or landed. */
  function Between(s: Machine<Word>, mem: Memory, q: Reg, v: Word, interrupted: bool): (t: Machine<Word>)
    requires Formed(s)
    ensures Formed(t)
  {
    if interrupted then Settle(MIPS, After(s, mem, q, v)) else After(s, mem, q, v)
  }

  lemma SettledBetween(s: Machine<Word>, mem: Memory, q: Reg, v: Word, base: Reg, interrupted: bool)
    requires Ready(MIPS, s) && s.loadReg == 0 && q != 0 && q != base
    ensures Ready(MIPS, After(s, mem, q, v))
    ensures var t := Between(s, mem, q, v, interrupted);
            Ready(MIPS, t) && t.mem == mem && t.gpr[base] == s.gpr[base] && Merged(t, q) == v
  {
  }

  lemma SettledAfter(s: Machine<Word>, m1: Memory, q: Reg, v: Word, interrupted: bool, mem: Memory, r: Word)
    requires Ready(MIPS, s) && s.loadReg == 0 && q != 0
    ensures Settle(MIPS, After(Between(s, m1, q, v, interrupted), mem, q, r)).gpr == s.gpr[q := r]
  {
    assert s.gpr[0 := s.loadValue][0 := 0] == s.gpr;
    assert s.gpr[q := v][0 := 0] == s.gpr[q := v];
  }

  /** Where a byte access finds byte t after address a. */
  function ByteAfter(m: Memory, a: Word, t: nat): Option<nat> {
    if a + t < MODULUS && Phys(m, a + t).At? then Some(Phys(m, a + t).phys) else None
  }

  /** Byte p of main memory is one of the four bytes from address a. */
  predicate Covers(m: Memory, a: Word, p: nat) {
    exists t: nat | t < 4 :: ByteAfter(m, a, t) == Some(p)
  }

  /** Bytes a to a + 3, wherever they are mapped, hold r in little-endian order; all other bytes are as before. */
  predicate FourBytesChanged(m: Memory, bytes: Ram, a: Word, r: Word) {
    && (forall t: nat | t < 4 :: ByteAfter(m, a, t).Some? && ByteAfter(m, a, t).value < MEMORY_SIZE
                                 && bytes[ByteAfter(m, a, t).value] == ByteOf(r, t))
    && (forall p: nat | p < MEMORY_SIZE && !Covers(m, a, p) :: bytes[p] == m.bytes[p])
  }

  lemma ByteInside(m: Memory, a: Word, r: Word, t: nat)
    requires Reachable(m, a) && t < 4
    ensures var lo, hi, k := Lo(m, a), Hi(m, a), a % 4;
      ByteAfter(m, a, t) == Some(Spot(lo, hi, k, t))
        && BothStored(m.bytes, lo, hi, k, r)[Spot(lo, hi, k, t)] == ByteOf(r, t)
  {
    LoHiApart(m, a);
    SpotIsPhys(m, a, t);
    BothStoredAt(m.bytes, Lo(m, a), Hi(m, a), a % 4, r, Spot(Lo(m, a), Hi(m, a), a % 4, t));
  }

  lemma ByteOutside(m: Memory, a: Word, r: Word, p: nat)
    requires Reachable(m, a) && p < MEMORY_SIZE && !Covers(m, a, p)
    ensures BothStored(m.bytes, Lo(m, a), Hi(m, a), a % 4, r)[p] == m.bytes[p]
  {
    LoHiApart(m, a);
    forall t: nat | t < 4
      ensures p != Spot(Lo(m, a), Hi(m, a), a % 4, t)
    {
      ByteInside(m, a, r, t);
    }
    BothStoredAt(m.bytes, Lo(m, a), Hi(m, a), a % 4, r, p);
  }

  lemma FourBytes(m: Memory, bytes: Ram, a: Word, r: Word)
    requires Reachable(m, a) && bytes == BothStored(m.bytes, Lo(m, a), Hi(m, a), a % 4, r)
    ensures FourBytesChanged(m, bytes, a, r) && Collected(bytes, Lo(m, a), Hi(m, a), a % 4, r)
  {
    forall t: nat | t < 4
      ensures ByteAfter(m, a, t) == Some(Spot(Lo(m, a), Hi(m, a), a % 4, t))
      ensures bytes[Spot(Lo(m, a), Hi(m, a), a % 4, t)] == ByteOf(r, t)
    {
      ByteInside(m, a, r, t);
    }
    forall p: nat | p < MEMORY_SIZE && !Covers(m, a, p)
      ensures bytes[p] == m.bytes[p]
    {
      ByteOutside(m, a, r, p);
    }
  }

  lemma SameReach(m: Memory, n: Memory, a: Word)
    requires Reachable(m, a) && SameMap(m, n)
    ensures Reachable(n, a) && Lo(n, a) == Lo(m, a) && Hi(n, a) == Hi(m, a)
  {
    SameTranslation(m, n, WordAt(a));
    SameTranslation(m, n, WordAfter(a));
  }

  /** Store r unaligned, load it back unaligned into q: q is r, nothing else has changed but the four bytes. */
  lemma UnalignedRoundTrip(s: Machine<Word>, base: Reg, r: Reg, q: Reg, x: Word, y: Word, a: Word, interrupted: bool)
    returns (s1: Machine<Word>, s2: Machine<Word>, s3: Machine<Word>, s4: Machine<Word>)
    requires Ready(MIPS, s) && (s.loadReg == 0 || (s.loadReg != base && s.loadReg != r)) && q != 0 && q != base
    requires Addresses(s.gpr[base], x, y, a) && Reachable(s.mem, a)
    ensures Do(s, Store(SWL), base, r, y) == Outcome(s1, None)
    ensures Formed(s1) && Do(s1, Store(SWR), base, r, x) == Outcome(s2, None)
    ensures Formed(s2) && Do(s2, Load(LWL), base, q, y) == Outcome(s3, None)
    ensures Formed(s3) && Do(if interrupted then Settle(MIPS, s3) else s3, Load(LWR), base, q, x) == Outcome(s4, None)
    ensures Formed(s4) && Settle(MIPS, s4).gpr == Settle(MIPS, s).gpr[q := s.gpr[r]]
    ensures FourBytesChanged(s.mem, s4.mem.bytes, a, s.gpr[r])
  {
    s1, s2 := StorePair(s, base, r, x, y, a);
    FourBytes(s.mem, s2.mem.bytes, a, s.gpr[r]);
    SameReach(s.mem, s2.mem, a);
    Kept(s, s.mem, 0, 0, base);
    assert s2.gpr[base] == s.gpr[base];
    assert Ready(MIPS, s2);
    assert Addresses(s2.gpr[base], x, y, a);
    assert Collected(s2.mem.bytes, Lo(s2.mem, a), Hi(s2.mem, a), a % 4, s.gpr[r]);
    s3, s4 := LoadPair(s2, base, q, x, y, a, interrupted, s.gpr[r]);
  }
}
