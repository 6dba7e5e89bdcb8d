/** machine/translate.cc: virtual memory as the simulated processor sees it. */
module MemoryModel {
  import opened Bytes

  /** A 32-bit register or memory word, as an unsigned number. */
  type Word = x: int | 0 <= x < 0x1_0000_0000

  const PAGE_SIZE := 128
  const NUM_PHYS_PAGES := 128
  const MEMORY_SIZE := 16384

  type Ram = s: seq<byte> | |s| == MEMORY_SIZE witness seq(MEMORY_SIZE, i => 0)

  datatype Exception = Syscall | PageFault | ReadOnly | BusError | AddressError | Overflow | IllegalInstr

  datatype Entry = Entry(virtualPage: int, physicalPage: int, valid: bool, readOnly: bool, use: bool, dirty: bool)

  /** Main memory with either a linear page table or a TLB. */
  datatype Memory = Memory(bytes: Ram, entries: seq<Entry>, tlb: bool)

  // ---- words in memory ------------------------------------------------------

  /** Byte j of a word; byte 0 is the low one. */
  function ByteOf(w: Word, j: nat): byte
    requires j < 4
  {
    if j == 0 then w % 0x100
    else if j == 1 then w / 0x100 % 0x100
    else if j == 2 then w / 0x1_0000 % 0x100
    else w / 0x100_0000
  }

  function FromBytes(b0: byte, b1: byte, b2: byte, b3: byte): Word {
    b0 + 0x100 * b1 + 0x1_0000 * b2 + 0x100_0000 * b3
  }

  lemma {:induction false} Multiples(d: nat, p: int, q: int)
    requires q >= p + 1
    ensures d * q >= d * p + d
    decreases q - p
  {
    if q > p + 1 { Multiples(d, p, q - 1); }
  }

  /** Quotient and remainder are unique. */
  lemma Divides(d: nat, q: nat, r: nat)
    requires r < d
    ensures (d * q + r) / d == q && (d * q + r) % d == r
  {
    var x := d * q + r;
    assert x == d * (x / d) + x % d;
    if q > x / d { Multiples(d, x / d, q); }
    if q < x / d { Multiples(d, q, x / d); }
  }

  lemma BytesOfWord(b0: byte, b1: byte, b2: byte, b3: byte)
    ensures var w := FromBytes(b0, b1, b2, b3);
            ByteOf(w, 0) == b0 && ByteOf(w, 1) == b1 && ByteOf(w, 2) == b2 && ByteOf(w, 3) == b3
  {
    Divides(0x100, b1 as int + 0x100 * b2 + 0x1_0000 * b3, b0);
    Divides(0x1_0000, b2 as int + 0x100 * b3, b0 as int + 0x100 * b1);
    Divides(0x100_0000, b3, b0 as int + 0x100 * b1 + 0x1_0000 * b2);
    Divides(0x100, b2 as int + 0x100 * b3, b1);
    Divides(0x100, b3, b2);
  }

  lemma WordOfBytes(w: Word)
    ensures w == FromBytes(ByteOf(w, 0), ByteOf(w, 1), ByteOf(w, 2), ByteOf(w, 3))
  {
    assert w == w % 0x100 + 0x100 * (w / 0x100);
    assert w / 0x100 == w / 0x100 % 0x100 + 0x100 * (w / 0x1_0000);
    assert w / 0x1_0000 == w / 0x1_0000 % 0x100 + 0x100 * (w / 0x100_0000);
  }

  lemma BytesDetermine(v: Word, w: Word)
    requires forall j: nat | j < 4 :: ByteOf(v, j) == ByteOf(w, j)
    ensures v == w
  {
    WordOfBytes(v);
    WordOfBytes(w);
  }

  /** What the host's word access reads and writes, whatever its own byte order: WordToHost and
      WordToMachine make memory little-endian. */
  function GetWord(bytes: seq<byte>, p: nat): Word
    requires p + 4 <= |bytes|
  {
    FromBytes(bytes[p], bytes[p + 1], bytes[p + 2], bytes[p + 3])
  }

  function PutWord(bytes: seq<byte>, p: nat, w: Word): (r: seq<byte>)
    requires p + 4 <= |bytes|
    ensures |r| == |bytes|
  {
    bytes[p := ByteOf(w, 0)][p + 1 := ByteOf(w, 1)][p + 2 := ByteOf(w, 2)][p + 3 := ByteOf(w, 3)]
  }

  lemma WordBytes(bytes: seq<byte>, p: nat, j: nat)
    requires p + 4 <= |bytes| && j < 4
    ensures ByteOf(GetWord(bytes, p), j) == bytes[p + j]
  {
    BytesOfWord(bytes[p], bytes[p + 1], bytes[p + 2], bytes[p + 3]);
  }

  lemma PutWordAt(bytes: seq<byte>, p: nat, w: Word, q: nat)
    requires p + 4 <= |bytes| && q < |bytes|
    ensures PutWord(bytes, p, w)[q] == if p <= q < p + 4 then ByteOf(w, q - p) else bytes[q]
  {
  }

  /** Reading a word back gives the word written. */
  lemma WordReadsBack(bytes: seq<byte>, p: nat, w: Word)
    requires p + 4 <= |bytes|
    ensures GetWord(PutWord(bytes, p, w), p) == w
  {
    WordOfBytes(w);
  }

  // ---- translation ----------------------------------------------------------

  /** The first valid TLB entry for the page, at or after entry i. */
  function FirstHit(entries: seq<Entry>, vpn: nat, i: nat): (r: nat)
    requires i <= |entries|
    ensures i <= r <= |entries|
    ensures r < |entries| ==> entries[r].valid && entries[r].virtualPage == vpn
    ensures forall k | i <= k < r :: !(entries[k].valid && entries[k].virtualPage == vpn)
    decreases entries, |entries| - i
  {
    if i == |entries| || (entries[i].valid && entries[i].virtualPage == vpn) then i else FirstHit(entries, vpn, i + 1)
  }

  datatype Lookup = Found(index: nat) | Missing(exception: Exception)

  function FindEntry(m: Memory, vpn: nat): (r: Lookup)
    ensures r.Found? ==> r.index < |m.entries| && m.entries[r.index].valid
  {
    if m.tlb then
      var i := FirstHit(m.entries, vpn, 0);
      if i < |m.entries| then Found(i) else Missing(PageFault)
    else if vpn >= |m.entries| then Missing(AddressError)
    else if !m.entries[vpn].valid then Missing(PageFault)
    else Found(vpn)
  }

  /** The size of an access: 1, 2 or 4 bytes. */
  datatype Size = One | Two | Four

  function SizeOf(size: Size): nat {
    match size case One => 1 case Two => 2 case Four => 4
  }

  predicate Aligned(addr: Word, size: Size) {
    (size == Four ==> addr % 4 == 0) && (size == Two ==> addr % 2 == 0)
  }

  datatype Frame = Frame(page: nat, index: nat) | NoFrame(exception: Exception)

  /** The page frame of a virtual page. */
  function Locate(m: Memory, vpn: nat, writing: bool): (r: Frame)
    ensures r.Frame? ==> r.page < NUM_PHYS_PAGES && r.index < |m.entries|
  {
    var l := FindEntry(m, vpn);
    if l.Missing? then NoFrame(l.exception)
    else
      var e := m.entries[l.index];
      if e.readOnly && writing then NoFrame(ReadOnly)
      else if !(0 <= e.physicalPage < NUM_PHYS_PAGES) then NoFrame(BusError)
      else Frame(e.physicalPage, l.index)
  }

  /** The entry that maps a virtual page: the page table's own, or the first valid one of the TLB for the page. */
  predicate Maps(m: Memory, vpn: nat, k: nat) {
    && k < |m.entries| && m.entries[k].valid
    && if m.tlb then m.entries[k].virtualPage == vpn && forall j | 0 <= j < k ::
                       !(m.entries[j].valid && m.entries[j].virtualPage == vpn)
       else k == vpn
  }

  /** No entry maps the page. */
  predicate Unmapped(m: Memory, vpn: nat) {
    if m.tlb then forall j | 0 <= j < |m.entries| :: !(m.entries[j].valid && m.entries[j].virtualPage == vpn)
    else vpn >= |m.entries| || !m.entries[vpn].valid
  }

  /** An access gets to the byte of the page's frame at its offset in the page, exactly when it is aligned, an entry
      maps the page, the entry lets it write and the frame exists; every other access faults, for the first of these
      that fails. */
  lemma TranslateExactly(m: Memory, addr: Word, size: Size, writing: bool, k: nat)
    ensures var t := Translate(m, addr, size, writing);
            var vpn, offset := addr / 128, addr % 128;
            && (addr % SizeOf(size) != 0 ==> t == Fault(AddressError))
            && (addr % SizeOf(size) == 0 && Unmapped(m, vpn) ==>
                  t == Fault(if !m.tlb && vpn >= |m.entries| then AddressError else PageFault))
            && (addr % SizeOf(size) == 0 && Maps(m, vpn, k) ==>
                  var e := m.entries[k];
                  if writing && e.readOnly then t == Fault(ReadOnly)
                  else if e.physicalPage < 0 || e.physicalPage >= 128 then t == Fault(BusError)
                  else t == At(128 * e.physicalPage + offset, k))
  {
  }

  datatype Translation = At(phys: nat, index: nat) | Fault(exception: Exception)

  /** A translated access lies inside main memory: the ASSERT at the end of Translate holds. */
  function Translate(m: Memory, addr: Word, size: Size, writing: bool): (r: Translation)
    ensures r.At? ==> r.phys + SizeOf(size) <= MEMORY_SIZE && r.index < |m.entries|
  {
    if !Aligned(addr, size) then Fault(AddressError)
    else
      var f := Locate(m, addr / PAGE_SIZE, writing);
      if f.NoFrame? then Fault(f.exception)
      else
        OffsetFits(addr, size);
        At(f.page * PAGE_SIZE + addr % PAGE_SIZE, f.index)
  }

  lemma OffsetFits(addr: Word, size: Size)
    requires Aligned(addr, size)
    ensures addr % PAGE_SIZE + SizeOf(size) <= PAGE_SIZE
  {
  }

  /** The use and dirty bits after a successful translation. */
  function Touched(m: Memory, index: nat, writing: bool): Memory
    requires index < |m.entries|
  {
    var e := m.entries[index];
    m.(entries := m.entries[index := e.(use := true, dirty := e.dirty || writing)])
  }

  /** Use and dirty bits do not affect translation. */
  lemma TouchedTranslate(m: Memory, index: nat, w: bool, addr: Word, size: Size, writing: bool)
    requires index < |m.entries|
    ensures Translate(Touched(m, index, w), addr, size, writing) == Translate(m, addr, size, writing)
  {
    TouchedLocate(m, index, w, addr / PAGE_SIZE, writing);
  }

  lemma TouchedLocate(m: Memory, index: nat, w: bool, vpn: nat, writing: bool)
    requires index < |m.entries|
    ensures Locate(Touched(m, index, w), vpn, writing) == Locate(m, vpn, writing)
  {
    TouchedHit(m, index, w, vpn, 0);
  }

  lemma {:induction false} TouchedHit(m: Memory, index: nat, w: bool, vpn: nat, i: nat)
    requires index < |m.entries| && i <= |m.entries|
    ensures FirstHit(Touched(m, index, w).entries, vpn, i) == FirstHit(m.entries, vpn, i)
    decreases |m.entries| - i
  {
    if i < |m.entries| {
      TouchedHit(m, index, w, vpn, i + 1);
    }
  }

  datatype ReadResult = Got(mem: Memory, value: Word) | NotRead(exception: Exception)
  datatype WriteResult = Put(mem: Memory) | NotWritten(exception: Exception)

  function ReadMem(m: Memory, addr: Word, size: Size): (r: ReadResult)
    ensures r.Got? ==> r.mem.bytes == m.bytes
  {
    var t := Translate(m, addr, size, false);
    if t.Fault? then NotRead(t.exception)
    else Got(Touched(m, t.index, false), Fetched(m.bytes, t.phys, size))
  }

  /** A char is signed, a short and a word are read as unsigned. */
  function Fetched(bytes: seq<byte>, p: nat, size: Size): Word
    requires p + SizeOf(size) <= |bytes|
  {
    match size
    case One => if bytes[p] >= 0x80 then 0xffff_ff00 + bytes[p] else bytes[p]
    case Two => bytes[p] + 0x100 * bytes[p + 1]
    case Four => GetWord(bytes, p)
  }

  function WriteMem(m: Memory, addr: Word, size: Size, value: Word): (r: WriteResult)
  {
    var t := Translate(m, addr, size, true);
    if t.Fault? then NotWritten(t.exception)
    else Put(Touched(m, t.index, true).(bytes := Stored(m.bytes, t.phys, size, value)))
  }

  function Stored(bytes: Ram, p: nat, size: Size, value: Word): (r: Ram)
    requires p + SizeOf(size) <= |bytes|
  {
    if size == One then bytes[p := ByteOf(value, 0)]
    else if size == Two then bytes[p := ByteOf(value, 0)][p + 1 := ByteOf(value, 1)]
    else PutWord(bytes, p, value)
  }

  /** n is m but for the use and dirty bits of entry k: it has been used, and is dirty now if it was or if this was a
      write. */
  predicate Marked(m: Memory, n: Memory, k: nat, writing: bool) {
    && |n.entries| == |m.entries| && k < |m.entries| && n.tlb == m.tlb
    && (forall j | 0 <= j < |m.entries| && j != k :: n.entries[j] == m.entries[j])
    && n.entries[k].use && n.entries[k].dirty == (m.entries[k].dirty || writing)
    && n.entries[k].virtualPage == m.entries[k].virtualPage && n.entries[k].physicalPage == m.entries[k].physicalPage
    && n.entries[k].valid == m.entries[k].valid && n.entries[k].readOnly == m.entries[k].readOnly
  }

  /** An access marks the entry that translated its address, as used and, if it writes, as dirty; a read gives what is
      in memory there and changes no byte of it. */
  lemma AccessMarks(m: Memory, addr: Word, size: Size, value: Word)
    ensures var r, t := ReadMem(m, addr, size), Translate(m, addr, size, false);
            if t.Fault? then r == NotRead(t.exception)
            else r.Got? && Marked(m, r.mem, t.index, false) && r.mem.bytes == m.bytes
    ensures var w, t := WriteMem(m, addr, size, value), Translate(m, addr, size, true);
            if t.Fault? then w == NotWritten(t.exception) else w.Put? && Marked(m, w.mem, t.index, true)
  {
  }

  // ---- one word, byte by byte -----------------------------------------------

  /** The physical place of one byte of virtual memory, if a byte read of it succeeds. */
  function Phys(m: Memory, addr: Word): Translation {
    Translate(m, addr, One, false)
  }

  /** Byte k of an aligned word lies k bytes after its first byte. */
  lemma PhysInWord(m: Memory, addr: Word, writing: bool, k: nat)
    requires addr % 4 == 0 && k < 4 && Translate(m, addr, Four, writing).At?
    ensures addr + k < 0x1_0000_0000
    ensures Phys(m, addr + k).At? && Phys(m, addr + k).phys == Translate(m, addr, Four, writing).phys + k
  {
    var words := addr / 4;
    Divides(32, words / 32, words % 32);
    assert addr == PAGE_SIZE * (words / 32) + 4 * (words % 32);
    Divides(PAGE_SIZE, words / 32, 4 * (words % 32));
    Divides(PAGE_SIZE, words / 32, 4 * (words % 32) + k);
  }
}
