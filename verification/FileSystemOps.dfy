/** filesys/filesys.cc: the code of the format block, Create and Remove, against the relations on raw disks. */
module FileSystemOps {
  import opened Sequences
  import opened Bytes
  import opened BitmapModel
  import opened DiskFormat
  import opened FileData
  import opened DirectoryModel
  import opened FileSystemSpec
  import opened FileSystemModel

  /** Sectors that did not change decode to the same headers. */
  lemma SameSectorsSameHeaders(d: Sectors, d': Sectors, but: int)
    requires Bootable(d) && Bootable(d') && Untouched(d, d', but)
    requires SlotGood(View(d), -2) && SlotGood(View(d), -1)
    ensures SameHeadersBut(View(d), View(d'), but)
  {
  }

  /** The three writes of Create, in the order the code makes them. */
  lemma CreateWrites(d: Sectors, home: int, h: Header, t: seq<Entry>, w: Words, d2: Sectors, d3: Sectors)
    requires MetaApart(d) && WellShaped(h)
    requires 0 <= home < NUM_SECTORS && home != FREE_MAP_SECTOR && home != DIRECTORY_SECTOR
    requires home !in DataOf(MapHeader(d)) && home !in DataOf(DirHeader(d))
    requires |t| == NUM_DIR_ENTRIES && TableShaped(t) && 32 * |w| == NUM_SECTORS
    requires Wrote(d[home := EncodeHeader(h)], d2, DirHeader(d), 0, EncodeTable(t))
    requires Wrote(d2, d3, MapHeader(d), 0, EncodeWords(w))
    ensures MetaApart(d3) && SameMetaHeaders(d, d3) && Untouched(d, d3, home)
    ensures View(d3).table == t && View(d3).words == w && HeaderAt(d3, home) == h
  {
    HeaderWritten(d, home, h);
    TableWritten(d[home := EncodeHeader(h)], d2, t);
    WordsWritten(d2, d3, w);
  }

  /** Together they are what Create means. */
  lemma CreateWritesCreate(d: Sectors, d3: Sectors, name: Name, size: nat)
    requires Consistent(d) && CanCreate(View(d), name, size)
    requires MetaApart(d3) && SameMetaHeaders(d, d3) && Untouched(d, d3, NewHome(View(d)))
    requires View(d3).table == Added(View(d).table, FreeSlot(View(d).table, 0), name, NewHome(View(d)))
    requires View(d3).words == NewGrab(View(d), size).words
    requires HeaderHolds(HeaderAt(d3, NewHome(View(d))), size, NewGrab(View(d), size).taken)
    ensures CreatedOn(d, d3, name, size)
  {
    ConsistentIsApart(d);
    SameSectorsSameHeaders(d, d3, NewHome(View(d)));
  }

  /** The sector for a new header belongs to none of the metadata. */
  lemma NewHomeIsApart(d: Sectors)
    requires Consistent(d) && NumClear(View(d).words, NUM_SECTORS) > 0
    ensures var s := NewHome(View(d));
            && s != FREE_MAP_SECTOR && s != DIRECTORY_SECTOR
            && MetaApart(d) && s !in DataOf(MapHeader(d)) && s !in DataOf(DirHeader(d))
  {
    var m, s := View(d), NewHome(View(d));
    ConsistentIsApart(d);
    assert Live(m, -2) && Live(m, -1);
    FreeIsUnowned(m, -2, s);
    FreeIsUnowned(m, -1, s);
  }

  lemma RemoveWrites(d: Sectors, name: Name, w: Words, d1: Sectors, d2: Sectors)
    requires Consistent(d) && IndexOf(View(d).table, name, 0) != -1 && 32 * |w| == NUM_SECTORS
    requires forall s: nat | s < NUM_SECTORS ::
               Bit(w, s) == (Bit(View(d).words, s) && !Owns(View(d), IndexOf(View(d).table, name, 0), s))
    requires Wrote(d, d1, MapHeader(d), 0, EncodeWords(w))
    requires Wrote(d1, d2, DirHeader(d), 0, EncodeTable(Removed(View(d).table, IndexOf(View(d).table, name, 0))))
    ensures DeletedOn(d, d2, name)
  {
    var m := View(d);
    var slot := IndexOf(m.table, name, 0);
    ConsistentIsApart(d);
    WordsWritten(d, d1, w);
    TableWritten(d1, d2, Removed(m.table, slot));
    assert Live(m, slot);
    SameSectorsSameHeaders(d, d2, -1);
  }

  // ---- the bootstrap --------------------------------------------------------

  /** Exactly the first k of the 1024 bits are marked. */
  predicate MarkedBelow(w: Words, k: nat) {
    32 * |w| == NUM_SECTORS && forall s: nat | s < NUM_SECTORS :: Bit(w, s) <==> s < k
  }

  lemma {:induction false} ClearAbove(w: Words, k: nat, n: nat)
    requires MarkedBelow(w, k) && k <= n <= NUM_SECTORS
    ensures NumClear(w, n) == n - k
  {
    if n == k { NumClearNone(w, n); } else { ClearAbove(w, k, n - 1); }
  }

  /** Allocation on a map marked up to k takes the next sectors in order. */
  lemma {:induction false} GrabInOrder(w: Words, k: nat, n: nat)
    requires MarkedBelow(w, k) && k + n <= NUM_SECTORS
    ensures NumClear(w, NUM_SECTORS) == NUM_SECTORS - k
    ensures MarkedBelow(FindAndSetMany(w, NUM_SECTORS, n).words, k + n)
    ensures forall i | 0 <= i < n :: FindAndSetMany(w, NUM_SECTORS, n).taken[i] == k + i
  {
    ClearAbove(w, k, NUM_SECTORS);
    if n > 0 {
      GrabInOrder(w, k, n - 1);
      var before := FindAndSetMany(w, NUM_SECTORS, n - 1).words;
      NumClearPositive(before, NUM_SECTORS);
      var s := FirstClear(before, NUM_SECTORS, 0);
      assert !Bit(before, k + n - 1) && !Bit(before, s);
      MarkOnlyOne(before, s);
    }
  }

  /** After a format no name is listed, and all but five of the 1024 sectors are free. */
  lemma FormattedIsEmpty(d: Sectors, n: Name)
    requires Formatted(d)
    ensures Consistent(d) && Lookup(d, n) == None && NumClear(View(d).words, NUM_SECTORS) == 1019
  {
    FormattedIsConsistent(d);
    ClearAbove(View(d).words, 5, NUM_SECTORS);
  }

  lemma HoldsIsGood(h: Header, size: nat, data: seq<nat>)
    requires HeaderHolds(h, size, data) && size <= MAX_FILE_SIZE && |data| == SectorsFor(size)
    requires forall k | 0 <= k < |data| :: data[k] < NUM_SECTORS
    requires forall j, k | 0 <= j < k < |data| :: data[j] != data[k]
    ensures GoodHeader(h) && DataOf(h) == data
  {
    assert forall k | 0 <= k < |data| :: h.dataSectors[..|data|][k] == data[k];
  }

  /** The two header writes of the format block make the disk bootable. */
  lemma HeadersWritten(d: Sectors, mapHdr: Header, dirHdr: Header)
    requires IsDisk(d) && HeaderHolds(mapHdr, FREE_MAP_FILE_SIZE, [2])
             && HeaderHolds(dirHdr, DIRECTORY_FILE_SIZE, [3, 4])
    ensures var d2 := d[FREE_MAP_SECTOR := EncodeHeader(mapHdr)][DIRECTORY_SECTOR := EncodeHeader(dirHdr)];
            && MetaApart(d2) && MapHeader(d2) == mapHdr && DirHeader(d2) == dirHdr
            && DataOf(mapHdr) == [2] && DataOf(dirHdr) == [3, 4]
  {
    HoldsIsGood(mapHdr, FREE_MAP_FILE_SIZE, [2]);
    HoldsIsGood(dirHdr, DIRECTORY_FILE_SIZE, [3, 4]);
    HeaderRoundTrip(mapHdr);
    HeaderRoundTrip(dirHdr);
    var d1 := d[FREE_MAP_SECTOR := EncodeHeader(mapHdr)];
    assert IsDisk(d1);
    assert IsDisk(d1[DIRECTORY_SECTOR := EncodeHeader(dirHdr)]);
  }

  const BLANK := Entry(false, [0, 0, 0], 0, [0, 0, 0, 0, 0, 0, 0, 0, 0, 0], [0, 0])

  class FileSystem {
    const disk: SynchDisk
    var freeMapFile: OpenFile
    var directoryFile: OpenFile

    ghost predicate Valid()
      reads this, disk, freeMapFile, freeMapFile.hdr, directoryFile, directoryFile.hdr
    {
      && freeMapFile.disk == disk && directoryFile.disk == disk
      && Consistent(disk.sectors)
      && freeMapFile.hdr.Value() == MapHeader(disk.sectors)
      && directoryFile.hdr.Value() == DirHeader(disk.sectors)
    }

    /** Format: whatever the disk held before, it is an empty file system afterwards.  The junk
        arguments are the memory of objects the code does not initialise. */
    constructor Format(disk: SynchDisk, junkTable: seq<Entry>, junkMap: Header, junkDir: Header)
      requires IsDisk(disk.sectors) && |junkTable| == NUM_DIR_ENTRIES && TableShaped(junkTable)
      requires WellShaped(junkMap) && WellShaped(junkDir)
      modifies disk
      ensures this.disk == disk && Valid() && Formatted(disk.sectors)
    {
      var freeMap, mapHdr, dirHdr := AllocateMetadata(junkMap, junkDir);
      var directory := new Directory(junkTable);
      HeadersWritten(disk.sectors, mapHdr.Value(), dirHdr.Value());
      mapHdr.WriteBack(disk, FREE_MAP_SECTOR);
      dirHdr.WriteBack(disk, DIRECTORY_SECTOR);
      var mapFile := new OpenFile(disk, FREE_MAP_SECTOR);
      var dirFile := new OpenFile(disk, DIRECTORY_SECTOR);
      WriteMetadata(mapFile, dirFile, freeMap, directory);
      FormattedIsConsistent(disk.sectors);
      this.disk := disk;
      freeMapFile, directoryFile := mapFile, dirFile;
    }

    /** The first version of the bitmap file and of the directory file. */
    static method WriteMetadata(mapFile: OpenFile, dirFile: OpenFile, freeMap: Bitmap, directory: Directory)
      requires mapFile.disk == dirFile.disk && MetaApart(mapFile.disk.sectors)
      requires mapFile.hdr.Value() == MapHeader(mapFile.disk.sectors) && DataOf(MapHeader(mapFile.disk.sectors)) == [2]
      requires dirFile.hdr.Value() == DirHeader(mapFile.disk.sectors)
               && DataOf(DirHeader(mapFile.disk.sectors)) == [3, 4]
      requires freeMap.Valid() && MarkedBelow(freeMap.words, 5)
      requires directory.Valid() && |directory.table| == NUM_DIR_ENTRIES
      requires forall i | 0 <= i < NUM_DIR_ENTRIES :: !directory.table[i].inUse
      modifies mapFile.disk
      ensures Formatted(mapFile.disk.sectors) && SameMetaHeaders(old(mapFile.disk.sectors), mapFile.disk.sectors)
    {
      ghost var d2 := mapFile.disk.sectors;
      WriteBitmap(freeMap, mapFile);
      ghost var d3 := mapFile.disk.sectors;
      WordsWritten(d2, d3, freeMap.words);
      directory.WriteBack(dirFile);
      TableWritten(d3, mapFile.disk.sectors, directory.table);
    }

    /** Grab the well-known sectors, then the data sectors of the two files; there is enough space. */
    static method AllocateMetadata(junkMap: Header, junkDir: Header)
      returns (freeMap: Bitmap, mapHdr: FileHeader, dirHdr: FileHeader)
      requires WellShaped(junkMap) && WellShaped(junkDir)
      ensures fresh(freeMap) && fresh(mapHdr) && fresh(dirHdr)
      ensures freeMap.Valid() && MarkedBelow(freeMap.words, 5)
      ensures HeaderHolds(mapHdr.Value(), FREE_MAP_FILE_SIZE, [2])
              && HeaderHolds(dirHdr.Value(), DIRECTORY_FILE_SIZE, [3, 4])
    {
      freeMap := new Bitmap(NUM_SECTORS);
      mapHdr := new FileHeader(junkMap);
      dirHdr := new FileHeader(junkDir);
      MarkOnlyOne(freeMap.words, FREE_MAP_SECTOR);
      freeMap.MarkBit(FREE_MAP_SECTOR);
      MarkOnlyOne(freeMap.words, DIRECTORY_SECTOR);
      freeMap.MarkBit(DIRECTORY_SECTOR);
      AllocateNext(freeMap, mapHdr, FREE_MAP_FILE_SIZE, [2]);
      AllocateNext(freeMap, dirHdr, DIRECTORY_FILE_SIZE, [3, 4]);
    }

    /** With everything below data[0] marked and nothing else, a file gets just the sectors of data. */
    static method AllocateNext(freeMap: Bitmap, hdr: FileHeader, size: nat, ghost data: seq<nat>)
      requires freeMap.Valid() && freeMap.numBits == NUM_SECTORS && WellShaped(hdr.Value())
      requires size <= MAX_FILE_SIZE && |data| == SectorsFor(size) > 0 && data[0] + |data| <= NUM_SECTORS
      requires MarkedBelow(freeMap.words, data[0]) && forall i | 0 <= i < |data| :: data[i] == data[0] + i
      modifies freeMap, hdr
      ensures freeMap.Valid() && MarkedBelow(freeMap.words, data[0] + |data|)
      ensures HeaderHolds(hdr.Value(), size, data)
    {
      GrabInOrder(freeMap.words, data[0], |data|);
      ghost var g := FindAndSetMany(freeMap.words, NUM_SECTORS, |data|);
      var ok := hdr.Allocate(freeMap, size);
      assert ok && g.taken == data;
    }

    /** No format: just open the two files. */
    constructor Mount(disk: SynchDisk)
      requires Consistent(disk.sectors)
      ensures this.disk == disk && Valid()
    {
      var mapFile := new OpenFile(disk, FREE_MAP_SECTOR);
      var dirFile := new OpenFile(disk, DIRECTORY_SECTOR);
      this.disk := disk;
      freeMapFile, directoryFile := mapFile, dirFile;
    }

    /** The table and the free map as an operation first sees them. */
    method Load() returns (directory: Directory, freeMap: Bitmap)
      requires Valid()
      ensures fresh(directory) && directory.Valid() && directory.table == View(disk.sectors).table
      ensures fresh(freeMap) && freeMap.Valid() && freeMap.numBits == NUM_SECTORS
              && freeMap.words == View(disk.sectors).words
    {
      directory := new Directory(seq(NUM_DIR_ENTRIES, _ => BLANK));
      directory.FetchFrom(directoryFile);
      freeMap := new Bitmap(NUM_SECTORS);
      FetchBitmap(freeMap, freeMapFile);
    }

    /** All or nothing: succeeds exactly when CanCreate says so, and otherwise leaves every byte
        of the disk as it was.  `junk` is the uninitialised memory of the new header. */
    method Create(name: Name, initialSize: nat, junk: Header) returns (success: bool)
      requires Valid() && initialSize <= MAX_FILE_SIZE && WellShaped(junk)
      modifies disk
      ensures Valid()
      ensures success == CanCreate(View(old(disk.sectors)), name, initialSize)
      ensures success ==> CreatedOn(old(disk.sectors), disk.sectors, name, initialSize)
      ensures !success ==> disk.sectors == old(disk.sectors)
    {
      var directory, freeMap := Load();
      var sector, hdr;
      success, sector, hdr := Reserve(directory, freeMap, name, initialSize, junk, View(disk.sectors));
      if success {
        FlushCreate(directory, freeMap, hdr, sector, name, initialSize);
      }
    }

    /** The part of Create that works in memory only; its changes are discarded if it fails. */
    static method Reserve(directory: Directory, freeMap: Bitmap, name: Name, initialSize: nat, junk: Header,
                          ghost m: Meta)
      returns (success: bool, sector: int, hdr: FileHeader)
      requires directory.Valid() && freeMap.Valid() && freeMap.numBits == NUM_SECTORS
      requires MetaShaped(m) && Sound(m) && directory.table == m.table && freeMap.words == m.words
      requires initialSize <= MAX_FILE_SIZE && WellShaped(junk)
      modifies directory, freeMap
      ensures directory.Valid() && freeMap.Valid() && fresh(hdr)
      ensures success == CanCreate(m, name, initialSize)
      ensures success ==>
                && sector == NewHome(m)
                && directory.table == Added(m.table, FreeSlot(m.table, 0), name, sector)
                && freeMap.words == NewGrab(m, initialSize).words
                && HeaderHolds(hdr.Value(), initialSize, NewGrab(m, initialSize).taken)
    {
      CreateDecision(m, name, initialSize);
      hdr := new FileHeader(junk);
      sector := -1;
      var found := directory.Find(name);
      if found != -1 {
        return false, sector, hdr;
      }
      sector := freeMap.FindAndSet();
      if sector == -1 {
        return false, sector, hdr;
      }
      var added := directory.Add(name, sector);
      if !added {
        return false, sector, hdr;
      }
      var ok := hdr.Allocate(freeMap, initialSize);
      return ok, sector, hdr;
    }

    /** Everything worked: header, directory and bitmap go back to disk, in that order. */
    method FlushCreate(directory: Directory, freeMap: Bitmap, hdr: FileHeader, sector: nat, ghost name: Name,
                       ghost size: nat)
      requires Valid() && CanCreate(View(disk.sectors), name, size) && size <= MAX_FILE_SIZE
      requires sector == NewHome(View(disk.sectors))
      requires directory.Valid() && freeMap.Valid()
      requires directory.table == Added(View(disk.sectors).table, FreeSlot(View(disk.sectors).table, 0), name, sector)
      requires freeMap.words == NewGrab(View(disk.sectors), size).words
      requires HeaderHolds(hdr.Value(), size, NewGrab(View(disk.sectors), size).taken)
      modifies disk
      ensures Valid() && CreatedOn(old(disk.sectors), disk.sectors, name, size)
    {
      ghost var d := disk.sectors;
      NewHomeIsApart(d);
      HeaderWritten(d, sector, hdr.Value());
      hdr.WriteBack(disk, sector);
      directory.WriteBack(directoryFile);
      ghost var d2 := disk.sectors;
      WriteBitmap(freeMap, freeMapFile);
      CreateWrites(d, sector, hdr.Value(), directory.table, freeMap.words, d2, disk.sectors);
      CreateWritesCreate(d, disk.sectors, name, size);
      CreateKeepsConsistent(d, disk.sectors, name, size);
    }

    method Remove(name: Name, junk: Header) returns (success: bool)
      requires Valid() && WellShaped(junk)
      modifies disk
      ensures Valid()
      ensures success == (IndexOf(View(old(disk.sectors)).table, name, 0) != -1)
      ensures success ==> DeletedOn(old(disk.sectors), disk.sectors, name)
      ensures !success ==> disk.sectors == old(disk.sectors)
    {
      ghost var m := View(disk.sectors);
      var directory, freeMap := Load();
      var sector := directory.Find(name);
      FoundIsPresent(m, name);
      if sector == -1 {
        return false;
      }
      var fileHdr := new FileHeader(junk);
      fileHdr.FetchFrom(disk, sector);
      Release(directory, freeMap, fileHdr, sector, name, m);
      FlushRemove(directory, freeMap, name);
      return true;
    }

    /** The part of Remove that works in memory only. */
    static method Release(directory: Directory, freeMap: Bitmap, fileHdr: FileHeader, sector: nat, name: Name,
                          ghost m: Meta)
      requires directory.Valid() && freeMap.Valid() && freeMap.numBits == NUM_SECTORS
      requires MetaShaped(m) && Sound(m) && directory.table == m.table && freeMap.words == m.words
      requires sector < NUM_SECTORS && fileHdr.Value() == m.hdrs[sector]
      requires var slot := IndexOf(m.table, name, 0); slot != -1 && sector == m.table[slot].sector
      modifies directory, freeMap
      ensures directory.Valid() && directory.table == Removed(m.table, IndexOf(m.table, name, 0))
      ensures freeMap.Valid() && freeMap.numBits == NUM_SECTORS
      ensures forall s: nat | s < NUM_SECTORS ::
                Bit(freeMap.words, s) == (Bit(m.words, s) && !Owns(m, IndexOf(m.table, name, 0), s))
    {
      FoundIsPresent(m, name);
      OwnedAreMarked(m, IndexOf(m.table, name, 0));
      fileHdr.Deallocate(freeMap);
      MarkOnlyOne(freeMap.words, sector);
      freeMap.ClearBit(sector);
      var removed := directory.Remove(name);
    }

    /** Bitmap first, then the directory. */
    method FlushRemove(directory: Directory, freeMap: Bitmap, ghost name: Name)
      requires Valid() && IndexOf(View(disk.sectors).table, name, 0) != -1
      requires directory.Valid() && freeMap.Valid() && freeMap.numBits == NUM_SECTORS
      requires directory.table == Removed(View(disk.sectors).table, IndexOf(View(disk.sectors).table, name, 0))
      requires forall s: nat | s < NUM_SECTORS ::
                 Bit(freeMap.words, s)
                   == (Bit(View(disk.sectors).words, s)
                       && !Owns(View(disk.sectors), IndexOf(View(disk.sectors).table, name, 0), s))
      modifies disk
      ensures Valid() && DeletedOn(old(disk.sectors), disk.sectors, name)
    {
      ghost var d := disk.sectors;
      ConsistentIsApart(d);
      WriteBitmap(freeMap, freeMapFile);
      ghost var d1 := disk.sectors;
      WordsWritten(d, d1, freeMap.words);
      directory.WriteBack(directoryFile);
      RemoveWrites(d, name, freeMap.words, d1, disk.sectors);
      DeleteKeepsConsistent(d, disk.sectors, name);
    }
  }

  /** The checks of Create, in the order the code makes them, amount to CanCreate. */
  lemma CreateDecision(m: Meta, name: Name, size: nat)
    requires MetaShaped(m) && Sound(m)
    ensures IndexOf(m.table, name, 0) != -1 ==> m.table[IndexOf(m.table, name, 0)].sector != -1
    ensures var s := FirstClear(m.words, NUM_SECTORS, 0);
            && (CanCreate(m, name, size) <==>
                  && IndexOf(m.table, name, 0) == -1 && s != -1 && FreeSlot(m.table, 0) != -1
                  && SectorsFor(size) <= NumClear(Mark(m.words, s), NUM_SECTORS))
            && (CanCreate(m, name, size) ==>
                  && NewHome(m) == s
                  && NewGrab(m, size) == FindAndSetMany(Mark(m.words, s), NUM_SECTORS, SectorsFor(size)))
  {
    FoundIsPresent(m, name);
    var s := FirstClear(m.words, NUM_SECTORS, 0);
    if s == -1 {
      NumClearNone(m.words, NUM_SECTORS);
    } else {
      NumClearMark(m.words, NUM_SECTORS, s);
    }
  }

  /** A listed file's sector number is a real one, so Find's -1 can only mean "absent". */
  lemma FoundIsPresent(m: Meta, name: Name)
    requires MetaShaped(m) && Sound(m)
    ensures IndexOf(m.table, name, 0) != -1 ==>
              var slot := IndexOf(m.table, name, 0);
              Live(m, slot) && SlotGood(m, slot) && m.table[slot].sector == Home(m, slot) >= 0
  {
    var slot := IndexOf(m.table, name, 0);
    if slot != -1 { assert Live(m, slot); }
  }

  lemma OwnedAreMarked(m: Meta, j: int)
    requires MetaShaped(m) && Sound(m) && Live(m, j) && SlotGood(m, j)
    ensures forall s | Owns(m, j, s) :: 0 <= s < NUM_SECTORS && Bit(m.words, s)
    ensures forall s | s in DataOf(m.hdrs[Home(m, j)]) :: Owns(m, j, s)
  {
    forall s | Owns(m, j, s)
      ensures 0 <= s < NUM_SECTORS && Bit(m.words, s)
    {
      assert Owned(m, s);
    }
  }
}
