/** filesys/filesys.cc: what a raw disk means as a file system, and what consistency demands of it.
    The bitmap and the directory are files of the very disk they describe. */
module FileSystemSpec {
  import opened Bytes
  import opened BitmapModel
  import opened DiskFormat
  import opened FileData
  import opened DirectoryModel

  const FREE_MAP_SECTOR := 0
  const DIRECTORY_SECTOR := 1
  const NUM_DIR_ENTRIES := 10
  const FREE_MAP_FILE_SIZE := NUM_SECTORS / 8
  const DIRECTORY_FILE_SIZE := ENTRY_SIZE * NUM_DIR_ENTRIES

  function HeaderAt(d: Sectors, s: int): (h: Header)
    requires IsDisk(d) && 0 <= s < NUM_SECTORS
    ensures WellShaped(h)
  {
    DecodeHeader(d[s])
  }

  function MapHeader(d: Sectors): Header requires IsDisk(d) { HeaderAt(d, FREE_MAP_SECTOR) }

  function DirHeader(d: Sectors): Header requires IsDisk(d) { HeaderAt(d, DIRECTORY_SECTOR) }

  /** The two headers at the well-known sectors can be opened and have the sizes they were given. */
  predicate Bootable(d: Sectors) {
    && IsDisk(d)
    && GoodHeader(MapHeader(d)) && MapHeader(d).numBytes == FREE_MAP_FILE_SIZE
    && GoodHeader(DirHeader(d)) && DirHeader(d).numBytes == DIRECTORY_FILE_SIZE
  }

  /** Everything the file system ever decodes from a disk. */
  datatype Meta = Meta(words: Words, table: seq<Entry>, hdrs: seq<Header>)

  predicate MetaShaped(m: Meta) {
    && 32 * |m.words| == NUM_SECTORS
    && |m.table| == NUM_DIR_ENTRIES && TableShaped(m.table)
    && |m.hdrs| == NUM_SECTORS && forall s | 0 <= s < NUM_SECTORS :: WellShaped(m.hdrs[s])
  }

  function View(d: Sectors): (m: Meta)
    requires Bootable(d)
    ensures MetaShaped(m)
  {
    Meta(DecodeWords(Contents(d, MapHeader(d))),
         DecodeTable(Contents(d, DirHeader(d))),
         seq(NUM_SECTORS, s requires 0 <= s < NUM_SECTORS => HeaderAt(d, s)))
  }

  // ---- who owns which sector ------------------------------------------------

  /** File slots: -2 is the bitmap file, -1 the directory file, 0..9 the directory entries. */
  predicate Live(m: Meta, j: int)
    requires MetaShaped(m)
  {
    -2 <= j < NUM_DIR_ENTRIES && (j < 0 || m.table[j].inUse)
  }

  /** Where the slot's header is. */
  function Home(m: Meta, j: int): int
    requires MetaShaped(m) && -2 <= j < NUM_DIR_ENTRIES
  {
    if j == -2 then FREE_MAP_SECTOR else if j == -1 then DIRECTORY_SECTOR else m.table[j].sector
  }

  predicate SlotGood(m: Meta, j: int)
    requires MetaShaped(m) && -2 <= j < NUM_DIR_ENTRIES
  {
    && 0 <= Home(m, j) < NUM_SECTORS
    && GoodHeader(m.hdrs[Home(m, j)])
    && Home(m, j) !in DataOf(m.hdrs[Home(m, j)])
  }

  /** The slot's header sector and its data sectors. */
  predicate Owns(m: Meta, j: int, s: int)
    requires MetaShaped(m) && -2 <= j < NUM_DIR_ENTRIES
  {
    SlotGood(m, j) && (s == Home(m, j) || s in DataOf(m.hdrs[Home(m, j)]))
  }

  ghost predicate Owned(m: Meta, s: int)
    requires MetaShaped(m)
  {
    exists j | -2 <= j < NUM_DIR_ENTRIES :: Live(m, j) && Owns(m, j, s)
  }

  ghost predicate Disjoint(m: Meta)
    requires MetaShaped(m)
  {
    forall j, k, s | -2 <= j < k < NUM_DIR_ENTRIES && Live(m, j) && Live(m, k) :: !(Owns(m, j, s) && Owns(m, k, s))
  }

  /** Every live file is whole, no sector has two owners, the marked bits are exactly the owned
      sectors, and no two files share a name. */
  ghost predicate Sound(m: Meta)
    requires MetaShaped(m)
  {
    && (forall j | -2 <= j < NUM_DIR_ENTRIES && Live(m, j) :: SlotGood(m, j))
    && Disjoint(m)
    && (forall s: nat | s < NUM_SECTORS :: Bit(m.words, s) <==> Owned(m, s))
    && DistinctNames(m.table)
  }

  ghost predicate Consistent(d: Sectors) {
    Bootable(d) && Sound(View(d))
  }

  // ---- Create ---------------------------------------------------------------

  /** The exact condition for Create to succeed. */
  predicate CanCreate(m: Meta, name: Name, size: nat)
    requires MetaShaped(m)
  {
    && IndexOf(m.table, name, 0) == -1
    && FreeSlot(m.table, 0) != -1
    && NumClear(m.words, NUM_SECTORS) >= 1 + SectorsFor(size)
  }

  /** The lowest free sector, which becomes the header. */
  function NewHome(m: Meta): (s: nat)
    requires MetaShaped(m) && NumClear(m.words, NUM_SECTORS) > 0
    ensures s < NUM_SECTORS && !Bit(m.words, s)
  {
    NumClearPositive(m.words, NUM_SECTORS);
    FirstClear(m.words, NUM_SECTORS, 0)
  }

  function NewGrab(m: Meta, size: nat): (g: Grab)
    requires MetaShaped(m) && NumClear(m.words, NUM_SECTORS) >= 1 + SectorsFor(size)
    ensures |g.taken| == SectorsFor(size) && |g.words| == |m.words|
  {
    NumClearMark(m.words, NUM_SECTORS, NewHome(m));
    FindAndSetMany(Mark(m.words, NewHome(m)), NUM_SECTORS, SectorsFor(size))
  }

  predicate HeaderHolds(h: Header, size: nat, data: seq<nat>) {
    && WellShaped(h) && |data| <= NUM_DIRECT
    && h.numBytes == size && h.numSectors == |data| && h.dataSectors[..|data|] == data
  }

  /** Headers outside the metadata files and outside sector `but` are the same. */
  predicate SameHeadersBut(m: Meta, m': Meta, but: int)
    requires MetaShaped(m) && MetaShaped(m') && SlotGood(m, -2) && SlotGood(m, -1)
  {
    forall s | 0 <= s < NUM_SECTORS && s != but
               && s !in DataOf(m.hdrs[FREE_MAP_SECTOR]) && s !in DataOf(m.hdrs[DIRECTORY_SECTOR]) ::
      m'.hdrs[s] == m.hdrs[s]
  }

  predicate Created(m: Meta, m': Meta, name: Name, size: nat)
    requires MetaShaped(m) && MetaShaped(m') && SlotGood(m, -2) && SlotGood(m, -1) && CanCreate(m, name, size)
  {
    && m'.table == Added(m.table, FreeSlot(m.table, 0), name, NewHome(m))
    && m'.words == NewGrab(m, size).words
    && HeaderHolds(m'.hdrs[NewHome(m)], size, NewGrab(m, size).taken)
    && SameHeadersBut(m, m', NewHome(m))
  }

  /** What the new words say, bit by bit. */
  lemma GrabBits(m: Meta, size: nat)
    requires MetaShaped(m) && NumClear(m.words, NUM_SECTORS) >= 1 + SectorsFor(size)
    ensures var g, s := NewGrab(m, size), NewHome(m);
            && (forall t | t in g.taken :: t < NUM_SECTORS && t != s && !Bit(m.words, t))
            && (forall a, b | 0 <= a < b < |g.taken| :: g.taken[a] != g.taken[b])
            && (forall t: nat | t < NUM_SECTORS :: Bit(g.words, t) == (Bit(m.words, t) || t == s || t in g.taken))
            && NumClear(g.words, NUM_SECTORS) == NumClear(m.words, NUM_SECTORS) - 1 - SectorsFor(size)
  {
    var s := NewHome(m);
    NumClearMark(m.words, NUM_SECTORS, s);
    MarkOnlyOne(m.words, s);
    GrabTakesClearBits(Mark(m.words, s), NUM_SECTORS, SectorsFor(size));
  }

  /** Old files stay where they were: same home, same header. */
  lemma OldSlotStays(m: Meta, m': Meta, but: int, j: int)
    requires MetaShaped(m) && MetaShaped(m') && Sound(m) && SameHeadersBut(m, m', but)
    requires Live(m, j) && !Owns(m, j, but)
    requires j < 0 || m'.table[j] == m.table[j]
    ensures Home(m', j) == Home(m, j) && m'.hdrs[Home(m, j)] == m.hdrs[Home(m, j)]
    ensures forall s :: Owns(m', j, s) == Owns(m, j, s)
  {
    var s := Home(m, j);
    assert Owns(m, j, s) && Live(m, -2) && Live(m, -1);
    assert s !in DataOf(m.hdrs[FREE_MAP_SECTOR]) by {
      if s in DataOf(m.hdrs[FREE_MAP_SECTOR]) { assert Owns(m, -2, s); }
    }
    assert s !in DataOf(m.hdrs[DIRECTORY_SECTOR]) by {
      if s in DataOf(m.hdrs[DIRECTORY_SECTOR]) { assert Owns(m, -1, s); }
    }
  }

  /** The sectors of the new file were free, so nobody owned them. */
  lemma FreeIsUnowned(m: Meta, j: int, s: nat)
    requires MetaShaped(m) && Sound(m) && s < NUM_SECTORS && !Bit(m.words, s) && Live(m, j)
    ensures !Owns(m, j, s)
  {
    if Owns(m, j, s) { assert Owned(m, s); }
  }

  lemma NewSlot(m: Meta, m': Meta, name: Name, size: nat)
    requires MetaShaped(m) && MetaShaped(m') && Sound(m) && size <= MAX_FILE_SIZE
    requires SlotGood(m, -2) && SlotGood(m, -1) && CanCreate(m, name, size) && Created(m, m', name, size)
    ensures var slot := FreeSlot(m.table, 0);
            && Live(m', slot) && SlotGood(m', slot)
            && forall s :: Owns(m', slot, s) <==> (s == NewHome(m) || s in NewGrab(m, size).taken)
  {
    GrabBits(m, size);
    var h, taken := m'.hdrs[NewHome(m)], NewGrab(m, size).taken;
    forall k | 0 <= k < |taken|
      ensures h.dataSectors[k] == taken[k] < NUM_SECTORS
    {
      assert h.dataSectors[..|taken|][k] == taken[k] && taken[k] in taken;
    }
    assert GoodHeader(h);
    assert DataOf(h) == h.dataSectors[..|taken|];
  }

  /** An old file is where it was, and shares nothing with the new one. */
  lemma OldSlotKept(m: Meta, m': Meta, name: Name, size: nat, j: int)
    requires MetaShaped(m) && MetaShaped(m') && Sound(m) && size <= MAX_FILE_SIZE
    requires SlotGood(m, -2) && SlotGood(m, -1) && CanCreate(m, name, size) && Created(m, m', name, size)
    requires Live(m, j)
    ensures j != FreeSlot(m.table, 0) && Live(m', j) && SlotGood(m', j)
    ensures forall s :: Owns(m', j, s) == Owns(m, j, s)
    ensures forall s :: !(Owns(m, j, s) && Owns(m', FreeSlot(m.table, 0), s))
  {
    var slot, home := FreeSlot(m.table, 0), NewHome(m);
    GrabBits(m, size);
    NewSlot(m, m', name, size);
    FreeIsUnowned(m, j, home);
    OldSlotStays(m, m', home, j);
    forall s | Owns(m', slot, s)
      ensures !Owns(m, j, s)
    {
      FreeIsUnowned(m, j, s);
    }
  }

  /** The free map marks exactly the sectors that the old files and the new one own. */
  lemma CreateKeepsMarks(m: Meta, m': Meta, name: Name, size: nat, s: nat)
    requires MetaShaped(m) && MetaShaped(m') && Sound(m) && size <= MAX_FILE_SIZE
    requires SlotGood(m, -2) && SlotGood(m, -1) && CanCreate(m, name, size) && Created(m, m', name, size)
    requires s < NUM_SECTORS
    ensures Bit(m'.words, s) <==> Owned(m', s)
  {
    var slot := FreeSlot(m.table, 0);
    GrabBits(m, size);
    NewSlot(m, m', name, size);
    if s == NewHome(m) || s in NewGrab(m, size).taken {
      assert Owns(m', slot, s);
    } else if Owned(m, s) {
      var j :| -2 <= j < NUM_DIR_ENTRIES && Live(m, j) && Owns(m, j, s);
      OldSlotKept(m, m', name, size, j);
      assert Owns(m', j, s);
    } else if Owned(m', s) {
      var j :| -2 <= j < NUM_DIR_ENTRIES && Live(m', j) && Owns(m', j, s);
      OldSlotKept(m, m', name, size, j);
      assert Owned(m, s);
    }
  }

  lemma CreateKeepsSound(m: Meta, m': Meta, name: Name, size: nat)
    requires MetaShaped(m) && MetaShaped(m') && Sound(m) && size <= MAX_FILE_SIZE
    requires SlotGood(m, -2) && SlotGood(m, -1) && CanCreate(m, name, size) && Created(m, m', name, size)
    ensures Sound(m')
    ensures NumClear(m'.words, NUM_SECTORS) == NumClear(m.words, NUM_SECTORS) - 1 - SectorsFor(size)
    ensures IndexOf(m'.table, name, 0) == FreeSlot(m.table, 0)
  {
    var slot := FreeSlot(m.table, 0);
    GrabBits(m, size);
    NewSlot(m, m', name, size);
    AddKeepsDistinct(m.table, slot, name, NewHome(m));
    forall j | Live(m, j)
      ensures j != slot && Live(m', j) && SlotGood(m', j)
      ensures forall s :: Owns(m', j, s) == Owns(m, j, s)
      ensures forall s :: !(Owns(m, j, s) && Owns(m', slot, s))
    {
      OldSlotKept(m, m', name, size, j);
    }
    assert forall j | Live(m', j) :: j == slot || Live(m, j);
    forall s: nat | s < NUM_SECTORS
      ensures Bit(m'.words, s) <==> Owned(m', s)
    {
      CreateKeepsMarks(m, m', name, size, s);
    }
  }

  // ---- Remove ---------------------------------------------------------------

  predicate Deleted(m: Meta, m': Meta, name: Name)
    requires MetaShaped(m) && MetaShaped(m') && SlotGood(m, -2) && SlotGood(m, -1)
    requires IndexOf(m.table, name, 0) != -1 && SlotGood(m, IndexOf(m.table, name, 0))
  {
    var slot := IndexOf(m.table, name, 0);
    && m'.table == Removed(m.table, slot)
    && (forall s: nat | s < NUM_SECTORS :: Bit(m'.words, s) == (Bit(m.words, s) && !Owns(m, slot, s)))
    && SameHeadersBut(m, m', -1)
  }

  lemma RemainingSlotKept(m: Meta, m': Meta, name: Name, j: int)
    requires MetaShaped(m) && MetaShaped(m') && Sound(m)
    requires SlotGood(m, -2) && SlotGood(m, -1) && IndexOf(m.table, name, 0) != -1
    requires SlotGood(m, IndexOf(m.table, name, 0)) && Deleted(m, m', name) && Live(m', j)
    ensures j != IndexOf(m.table, name, 0) && Live(m, j) && SlotGood(m, j) && SlotGood(m', j)
    ensures forall s :: Owns(m', j, s) == Owns(m, j, s)
  {
    OldSlotStays(m, m', -1, j);
  }

  /** The free map marks exactly the sectors that the remaining files own. */
  lemma DeleteKeepsMarks(m: Meta, m': Meta, name: Name, s: nat)
    requires MetaShaped(m) && MetaShaped(m') && Sound(m) && s < NUM_SECTORS
    requires SlotGood(m, -2) && SlotGood(m, -1) && IndexOf(m.table, name, 0) != -1
    requires SlotGood(m, IndexOf(m.table, name, 0)) && Deleted(m, m', name)
    ensures Bit(m'.words, s) <==> Owned(m', s)
  {
    var slot := IndexOf(m.table, name, 0);
    if Bit(m'.words, s) {
      assert Owned(m, s);
      var j :| -2 <= j < NUM_DIR_ENTRIES && Live(m, j) && Owns(m, j, s);
      assert Live(m', j);
      RemainingSlotKept(m, m', name, j);
      assert Owns(m', j, s);
    } else if Owned(m', s) {
      var j :| -2 <= j < NUM_DIR_ENTRIES && Live(m', j) && Owns(m', j, s);
      RemainingSlotKept(m, m', name, j);
      assert Live(m, slot) && Live(m, j) && Owns(m, j, s) && Owned(m, s);
    }
  }

  lemma DeleteKeepsSound(m: Meta, m': Meta, name: Name)
    requires MetaShaped(m) && MetaShaped(m') && Sound(m)
    requires SlotGood(m, -2) && SlotGood(m, -1) && IndexOf(m.table, name, 0) != -1
    requires SlotGood(m, IndexOf(m.table, name, 0)) && Deleted(m, m', name)
    ensures Sound(m') && IndexOf(m'.table, name, 0) == -1
  {
    var slot := IndexOf(m.table, name, 0);
    forall j | Live(m', j)
      ensures j != slot && Live(m, j) && SlotGood(m', j)
      ensures forall s :: Owns(m', j, s) == Owns(m, j, s)
    {
      RemainingSlotKept(m, m', name, j);
    }
    forall s: nat | s < NUM_SECTORS
      ensures Bit(m'.words, s) <==> Owned(m', s)
    {
      DeleteKeepsMarks(m, m', name, s);
    }
    forall k | 0 <= k < NUM_DIR_ENTRIES
      ensures !Matches(m'.table[k], name)
    {
      MatchIsKeyEquality(m.table[slot], name, name);
      MatchIsKeyEquality(m.table[k], name, name);
    }
  }
}
